# auto_extract_analyse — a Dafny model of the SQL text builder

`auto_extract_analyse.py` asks the user how many CSV datasets to combine. It
loads each one by the prefix the user types. It then builds a
`SELECT [DISTINCT ]<columns> FROM <base>;` statement from the first dataset
and, when more than one dataset was asked for, appends one `LEFT JOIN` clause
per further dataset. Every answer except the DISTINCT one is validated. A
rejected answer is asked again, except that a rejected join column sends the
user back to the base-column question.

This project models the part of the script that turns answers into SQL text:
- the loader loop and its insertion-ordered dict of datasets (`source_exctration`);
- the DISTINCT question, the column-list parsing, validation and retry loop,
  and the SELECT template (`build_sql_select`);
- the join-column loops and the join template (`build_sql_join`);
- the top-level composition that picks the select text or the joined text.

Modelling choices:
- A dataset is its prefix and the ordered names of its columns. Row data is
  never read by the builder.
- The collection is a sequence of datasets. Inserting a known prefix replaces
  its columns in place, as a Python dict does.
- Everything the user types is one finite sequence of lines, consumed in
  order. Each step returns its result together with the lines it left unread
  (`Prompt.Reply`).
- When the lines run out before a step accepts an answer, the step returns
  `None`. The script would block, fail on end of input, or retry forever, and
  in every case it writes no query.
- The files under `raw/` are a map from prefix to column header (`Files`). A
  prefix is accepted exactly when its stripped text is a key of that map.
- Python string operations are written out over `seq<char>`: `strip()` with
  the full `str.isspace` set, `lower()`, `replace(" ", "")`, `split(",")`,
  `", ".join` and `rstrip(";")`.

Modules: `Text` (string operations), `Prompt` (the retry loop), `Datasets`
(collection and loader), `Select`, `Join`, `Pipeline` (top level) and
`Scenarios` (whole sessions worked through).

Behaviours of the code a reader may not expect:
- The column answer loses every space, interior ones included, and only the
  space character. Tabs inside the answer stay.
- The join clause is `"\nLEFT JOIN <t> \n\tON <base>.<bc> = <t>.<jc>"`, with a
  space and a tab around the line break.
- A join column the joined table lacks sends the user back to the base-column
  question, not to the join-column question.
- The join step runs when the requested count is above one, even if a
  repeated prefix left only one dataset. The text then loses its trailing
  semicolons and gets one back.
- Negative counts behave like zero: no dataset is loaded and no query is
  produced.

## Model

| member | source | states |
|---|---|---|
| Text.Trim | python/auto_extract_analyse/auto_extract_analyse.py:35 | `strip()` returns a text neither starting nor ending in whitespace; it is empty exactly when the answer is blank; a text with no whitespace at either end is returned unchanged |
| Text.TrimKeepsMiddle | python/auto_extract_analyse/auto_extract_analyse.py:35 | what `strip()` keeps is a slice of the answer with only whitespace before it and after it, so the middle of the text is never changed |
| Text.TrimStart | python/auto_extract_analyse/auto_extract_analyse.py:66 | the left strip removes only whitespace and returns a suffix of its input that starts with a non-space character |
| Text.TrimEnd | python/auto_extract_analyse/auto_extract_analyse.py:66 | the right strip removes only whitespace and returns a prefix of its input that ends with a non-space character |
| Text.LowerIsY | python/auto_extract_analyse/auto_extract_analyse.py:60 | an answer lower-cases to `"y"` exactly when it is `"y"` or `"Y"` |
| Text.Remove | python/auto_extract_analyse/auto_extract_analyse.py:67 | `replace(" ", "")` leaves no space and keeps every other character as often as it occurred |
| Text.RemoveAppend | python/auto_extract_analyse/auto_extract_analyse.py:67 | deleting spaces distributes over concatenation |
| Text.Split | python/auto_extract_analyse/auto_extract_analyse.py:67 | `split(",")` gives one piece more than there are commas, and no piece holds a comma |
| Text.JoinSplit | python/auto_extract_analyse/auto_extract_analyse.py:67 | joining the pieces of a split with the separator gives back the text |
| Text.SplitJoin | python/auto_extract_analyse/auto_extract_analyse.py:67 | splitting a join of comma-free pieces gives back the pieces |
| Text.RemoveSpacesJoin | python/auto_extract_analyse/auto_extract_analyse.py:67 | deleting the spaces of a `", "`-joined list of space-free names gives the `","`-joined list |
| Text.JoinWith | python/auto_extract_analyse/auto_extract_analyse.py:76 | `", ".join(columns)` opens with the first column name |
| Text.JoinWithLast | python/auto_extract_analyse/auto_extract_analyse.py:76 | a joined text closes with the last part; with JoinWith this places both end names, and `SplitJoin` recovers every part |
| Text.StripTrailing | python/auto_extract_analyse/auto_extract_analyse.py:92 | `rstrip(";")` returns a prefix that does not end in `;`, and everything it cut off was `;` |
| Text.StripTrailingKeepsPrefix | python/auto_extract_analyse/auto_extract_analyse.py:92 | a prefix that ends in another character survives `rstrip(";")` |
| Prompt.FirstAccepted | python/auto_extract_analyse/auto_extract_analyse.py:32-46 | the retry loop stops at an accepted answer after rejecting every earlier one, and finds none exactly when every answer is rejected |
| Prompt.RejectedLineSkipped | python/auto_extract_analyse/auto_extract_analyse.py:43-44 | a rejected answer leaves no trace: the loop finds the same answer, one line later |
| Datasets.Keys | python/auto_extract_analyse/auto_extract_analyse.py:90 | `list(dfs.keys())` lists the prefixes in insertion order |
| Datasets.Lookup | python/auto_extract_analyse/auto_extract_analyse.py:57 | a lookup finds columns exactly for a stored prefix |
| Datasets.Insert | python/auto_extract_analyse/auto_extract_analyse.py:41 | `dfs[p] = df` appends a new prefix at the end and keeps a known prefix in place; the prefix then maps to the new columns and every other prefix keeps its columns |
| Datasets.InsertKeepsBase | python/auto_extract_analyse/auto_extract_analyse.py:41 | no insert changes the first key, so the base table is fixed by the first insert |
| Datasets.InsertKeepsKeysUnique | python/auto_extract_analyse/auto_extract_analyse.py:41 | the dict never holds a prefix twice |
| Datasets.InsertLoaded | python/auto_extract_analyse/auto_extract_analyse.py:40-41 | after storing a freshly read file, every entry still holds the header of the file its prefix names |
| Datasets.LookupFinds | python/auto_extract_analyse/auto_extract_analyse.py:57 | with unique prefixes, looking up the prefix of entry `j` finds entry `j`'s columns |
| Datasets.LoadMore | python/auto_extract_analyse/auto_extract_analyse.py:30-42 | `k` loader iterations keep the entries faithful to their files and the prefixes unique; they add at most `k` entries, keep the base entry, and read answers only from the front |
| Datasets.ReadableAnswerStored | python/auto_extract_analyse/auto_extract_analyse.py:35-42 | an answer naming a readable file is stored at once, and the next iteration reads the following answer |
| Datasets.UnreadableAnswerSkipped | python/auto_extract_analyse/auto_extract_analyse.py:43-44 | an answer naming no readable file changes nothing, and the same dataset is asked for again |
| Datasets.LoadDatasets | python/auto_extract_analyse/auto_extract_analyse.py:26-47 | `source_exctration(n)` stores at most `n` datasets, none when `n` is not positive and at least one otherwise, each holding its file's header under a unique prefix |
| Datasets.BaseIsFirstReadable | python/auto_extract_analyse/auto_extract_analyse.py:56 | the base table is the first typed prefix that names a readable file |
| Select.WantsDistinct | python/auto_extract_analyse/auto_extract_analyse.py:60 | DISTINCT is chosen exactly when the stripped answer is `y` or `Y` |
| Select.DistinctKeyword | python/auto_extract_analyse/auto_extract_analyse.py:61 | the keyword is `"DISTINCT "` exactly when the raw answer strips to `y` or `Y`, and empty for every other answer |
| Select.ParseColumns | python/auto_extract_analyse/auto_extract_analyse.py:66-67 | a blank answer is the wildcard `["*"]`, and no parsed name holds a space or a comma |
| Select.ParseColumnsShape | python/auto_extract_analyse/auto_extract_analyse.py:67 | a non-blank answer gives one name more than it has commas, and the names joined with `","` give the stripped answer without its spaces |
| Select.StarIsWildcard | python/auto_extract_analyse/auto_extract_analyse.py:67-70 | an answer that strips to `*` parses to `["*"]`, so it skips the validation at line 70 just like a blank answer |
| Select.InvalidColumns | python/auto_extract_analyse/auto_extract_analyse.py:71 | the comprehension reports no more names than were requested; `InvalidColumnsExactly` and `InvalidColumnsAppend` give its contents and order |
| Select.InvalidColumnsExactly | python/auto_extract_analyse/auto_extract_analyse.py:71 | the reported names are exactly the requested names the base table lacks |
| Select.InvalidColumnsAppend | python/auto_extract_analyse/auto_extract_analyse.py:71 | the report keeps request order: it distributes over concatenation of requests |
| Select.Accepts | python/auto_extract_analyse/auto_extract_analyse.py:70-72 | a parsed request is accepted when it is `["*"]` or names no missing column; it has no contract of its own, and NoInvalidColumns and StarIsWildcard state what it decides |
| Select.NoInvalidColumns | python/auto_extract_analyse/auto_extract_analyse.py:70-74 | nothing is reported exactly when every requested name is a column of the base table |
| Select.ChooseColumns | python/auto_extract_analyse/auto_extract_analyse.py:65-77 | the column loop returns the parse of the first accepted answer and the answers after it, and fails only when no answer is accepted |
| Select.AcceptedAnswerTaken | python/auto_extract_analyse/auto_extract_analyse.py:70-77 | an accepted answer ends the column loop with its parse |
| Select.RejectedAnswerSkipped | python/auto_extract_analyse/auto_extract_analyse.py:72-74 | a rejected column answer leaves the column loop's outcome unchanged |
| Select.ColumnList | python/auto_extract_analyse/auto_extract_analyse.py:76 | the column part of the query opens with the first chosen name, `*` for all columns |
| Select.ColumnListRoundTrip | python/auto_extract_analyse/auto_extract_analyse.py:76 | reading the column part of the query back as an answer gives the chosen names |
| Select.BuildSelect | python/auto_extract_analyse/auto_extract_analyse.py:60-82 | the select text is `"SELECT " + D + C + " FROM " + base + ";"`, with D from the DISTINCT answer and C the chosen names joined by `", "` or `*` |
| Select.RejectedColumnsIgnored | python/auto_extract_analyse/auto_extract_analyse.py:65-74 | a rejected column answer leaves the select text unchanged, and DISTINCT is not asked again |
| Select.SameChoiceSameSelect | python/auto_extract_analyse/auto_extract_analyse.py:79-82 | the select text depends only on the DISTINCT answer and the outcome of the column loop |
| Join.AskJoinColumns | python/auto_extract_analyse/auto_extract_analyse.py:95-108 | a pair is accepted only when the base column is in the base table and the join column is in the joined table, and it names the joined table |
| Join.AcceptedPairTaken | python/auto_extract_analyse/auto_extract_analyse.py:97-108 | two valid answers are taken as the pair, stripped, and reading goes on after them |
| Join.RejectedBaseColumnSkipped | python/auto_extract_analyse/auto_extract_analyse.py:99-101 | a base column the base table lacks is skipped, and the base column is asked again |
| Join.RejectedJoinColumnRestarts | python/auto_extract_analyse/auto_extract_analyse.py:102-105 | a join column the joined table lacks discards the pair, and the next answer is read as a base column |
| Join.Clause | python/auto_extract_analyse/auto_extract_analyse.py:107 | a clause opens a new line with `LEFT JOIN <table>`, and its template adds no `;`: the clause holds one only when the base table, the joined table or one of the two column names does |
| Join.Clauses | python/auto_extract_analyse/auto_extract_analyse.py:94-107 | the clauses of the chosen joins, concatenated in insertion order; it has no contract of its own, and JoinFromChosen equates it with the text the loop appends |
| Join.ChooseJoins | python/auto_extract_analyse/auto_extract_analyse.py:94-108 | there is one valid join per non-base dataset, in insertion order, each with the base table on the left |
| Join.JoinSql | python/auto_extract_analyse/auto_extract_analyse.py:85-113 | the joined text exists exactly when every join is chosen; it starts with the select text stripped of its semicolons and ends with `;`; with no other dataset it is that stripped text plus one `;` |
| Join.RejectedBaseColumnIgnored | python/auto_extract_analyse/auto_extract_analyse.py:99-101 | a rejected base column for the first joined dataset leaves the joined text unchanged |
| Join.RejectedJoinColumnIgnored | python/auto_extract_analyse/auto_extract_analyse.py:102-105 | a rejected join column for the first joined dataset leaves the joined text unchanged |
| Join.JoinFrom | python/auto_extract_analyse/auto_extract_analyse.py:94-112 | the loop continued from any text already built and any datasets still to join; it carries no contract of its own: JoinFromChosen states its result and the two lemmas below its retries |
| Join.RejectedBaseColumnKeepsText | python/auto_extract_analyse/auto_extract_analyse.py:99-101 | while any dataset is being joined, whatever text is built so far, a base column the base table lacks leaves the result unchanged |
| Join.RejectedJoinColumnKeepsText | python/auto_extract_analyse/auto_extract_analyse.py:102-105 | while any dataset is being joined, whatever text is built so far, a join column the joined table lacks discards the pair and leaves the result unchanged |
| Join.JoinFromChosen | python/auto_extract_analyse/auto_extract_analyse.py:94-112 | growing the text clause by clause gives the stripped select text, all clauses in order, and one `;` |
| Join.JoinSqlByLoop | python/auto_extract_analyse/auto_extract_analyse.py:92-113 | the loop that appends clauses computes the joined text |
| Join.BuildJoin | python/auto_extract_analyse/auto_extract_analyse.py:85-113 | `build_sql_join` written as the script's loop over a growing string returns the joined text |
| Pipeline.FinalSql | python/auto_extract_analyse/auto_extract_analyse.py:119-127 | a query exists only when at least one dataset was asked for; it starts with `SELECT ` and ends with `;` |
| Pipeline.Query | python/auto_extract_analyse/auto_extract_analyse.py:121-127 | the select text or the joined text both start with `SELECT ` and end with `;` |
| Pipeline.NoDatasetNoQuery | python/auto_extract_analyse/auto_extract_analyse.py:56 | asking for no dataset, or a negative number, never yields a query |
| Pipeline.SelectKeepsKeyword | python/auto_extract_analyse/auto_extract_analyse.py:92 | stripping the select text's semicolons keeps its `SELECT ` keyword |
| Pipeline.OneDatasetIsSelect | python/auto_extract_analyse/auto_extract_analyse.py:121-122 | with one dataset the query is the select text exactly |
| Pipeline.SeveralDatasetsAreJoined | python/auto_extract_analyse/auto_extract_analyse.py:126-127 | with several datasets the query is the stripped select text, the join clauses in order, and one `;` |
| Pipeline.DuplicatePrefixJoinsNothing | python/auto_extract_analyse/auto_extract_analyse.py:92-112 | typing the same prefix twice for two datasets gives the select text with its trailing semicolons collapsed to one |
| Pipeline.DuplicatePrefixLoadsOne | python/auto_extract_analyse/auto_extract_analyse.py:35-41 | the second answer overwrites the first entry, so one dataset is stored |
| Scenarios.TwoColumnsOfOneTable | python/auto_extract_analyse/auto_extract_analyse.py:119-127 | table `t` with columns `id, name, age`, answers `" t "`, `"n"`, `"id , name"` give `SELECT id, name FROM t;` |
| Scenarios.PairFromOneTable | python/auto_extract_analyse/auto_extract_analyse.py:60-82 | two space-free column names typed around `" , "` select those two columns |
| Scenarios.ParsesPair | python/auto_extract_analyse/auto_extract_analyse.py:66-67 | the answer `a + " , " + b` parses to `[a, b]` |
| Scenarios.DistinctEverything | python/auto_extract_analyse/auto_extract_analyse.py:60-82 | DISTINCT and a blank column answer give `SELECT DISTINCT * FROM <base>;` |
| Scenarios.JoinOnSharedColumn | python/auto_extract_analyse/auto_extract_analyse.py:119-127 | two tables, DISTINCT, all columns and one shared join column give the select text followed by one LEFT JOIN clause and `;` |
| Scenarios.OrdersWithCustomers | python/auto_extract_analyse/auto_extract_analyse.py:119-127 | `orders` joined to `customers` on `cust_id` gives `SELECT DISTINCT * FROM orders\nLEFT JOIN customers \n\tON orders.cust_id = customers.cust_id;` |

## Left out

- `number_tables` (lines 10-24): the count is a parameter of `Pipeline.FinalSql`. Python's `int()` parsing accepts signs, whitespace and underscores, and that is library behaviour.
- File access (lines 34-40): building the path and `pd.read_csv` become the `Files` map. Any read failure counts as "not readable", which matches the two `except` branches. Both branches ask again.
- Column labels are modelled as strings. pandas headers that are not strings, such as numbers, are not modelled.
- Writing `output/joined_query.sql` (lines 131-143) is not modelled. It is plain I/O of the final text.
- All `print` output and the prompt texts are not modelled. They do not affect the query.
- `except Exception` in the join loop (lines 109-110) is not modelled. Apart from end of input, nothing in that loop raises.
- Text.Lower: only ASCII letters are lowered. Its one use is the comparison with `"y"`, and no other character lowers to `"y"`.
- The duplicate `cols_str` assignment at line 79 is not modelled separately. It recomputes the value set at line 76.
- End of input is modelled as no query (`None`). It is not modelled as the script's exception or endless retry.
