# askDB: the query path of `app.py`, modelled in Dafny

askDB is a small Flask service for a banking database. A user asks a question in
natural language. The service:

1. picks the table descriptions that the question seems to need (`get_relevant_schema`);
2. asks a language model for a MySQL statement;
3. passes the reply through a safety gate and a clean-up (`get_sql_from_gemini`);
4. runs the statement;
5. turns the rows it gets back into JSON-ready dictionaries (the `/api/query` handler).

The model covers the parts of this path that are pure logic over strings and
values. It also covers two helper functions the code defines: `determine_query_type`
and `is_safe_query`.

Modules, one per concern of the source:

- `Text`: the Python string operations the code relies on, on ASCII text.
  - `lower()`, `strip()`, `replace()` and `w in s`;
  - `split()` with no argument and `' '.join(...)`;
  - `'\n'.join(...)`. The code never splits on a line break: `Text.SplitOn`
    models `split('\n')` only to show that the join of line 144 can be undone
    (`SchemaSplitsIntoLines`).
  Whitespace is Python's ASCII whitespace: tab to carriage return, the four
  separators `\x1c`-`\x1f`, and the space.
- `SchemaContext`: `get_relevant_schema`, written as an imperative method. It is
  proved equal to a specification function; the table selection is stated about
  that function.
- `SqlGate`: the part of `get_sql_from_gemini` that follows the model call.
  - The reply is a parameter: either the reply text or the message of the error
    the call raised.
  - `GenerateSql` runs the steps in the source's order: strip, banned-word check,
    `select` check, then the clean-up, then the `sql`-prefix strip.
  - Every failure, including a failed model call, becomes
    `Error generating SQL query: ` followed by the message.
- `Classify`: `determine_query_type` and `is_safe_query`, and how they relate to
  the gate.
- `Rows`: the row conversion of the `/api/query` handler, written as the nested
  loops of the source.
  - Each column value is converted as follows:
    - a `date` becomes `isoformat()`;
    - a `datetime` is a `date` in Python, so it also becomes `isoformat()`;
    - a `Decimal` becomes `float(...)`;
    - anything else passes through.
  - An empty result gives a successful response with no data.

The checks in `get_sql_from_gemini` run on the stripped reply before the
clean-up (app.py lines 209-220). The model follows the code. Two consequences
of this order are proved as lemmas:

- A backtick inside a banned word hides the word from the check, and the clean-up
  then removes the backtick (`BacktickSmugglesBannedWord`).
- The `sql`-prefix strip of lines 223-224 can never fire (`SqlPrefixUnreachable`).

## Model

| member | source | states |
|---|---|---|
| `Text.IsSpace` | app.py:206 | the characters Python's `strip()` and `split()` treat as whitespace, on ASCII: tab to carriage return, `\x1c` to `\x1f`, and the space |
| `Text.StartsWith` | app.py:213 | `s.startswith(p)`: `p` is no longer than `s` and equals its first `|p|` characters; `SelectIsLetters`, `SqlPrefixUnreachable` and `KindsExclusive` reason about it |
| `Text.Contains` | app.py:210 | `w in s`: `w` occurs at some position of `s`; `ContainsBetween` and `ContainsTrans` state how occurrences arise and carry over |
| `Text.ContainsAny` | app.py:210 | `any(w in s for w in ws)`: some word of the list occurs in `s`; `GateRejectsBannedWord`, `SafeBeyondGate` and `ShortContainsNone` reason about it |
| `Text.ContainsBetween` | app.py:210 | a word placed between two texts occurs in their concatenation |
| `Text.NotContainsByChar` | app.py:210 | a word with a character the text lacks does not occur in it |
| `Text.NotContainsByPair` | app.py:210 | a word with two adjacent characters that never stand next to each other in the text does not occur in it |
| `Text.ShortContainsNone` | app.py:122-131 | a text shorter than every word of a list contains none of them |
| `Text.Lower` | app.py:115 | `lower()` on ASCII: each capital letter becomes its small letter and every other character is kept; `LowerUnchanged` states that text without capitals is left alone |
| `Text.LowerUnchanged` | app.py:209 | lower-casing a text without ASCII capitals leaves it unchanged |
| `Text.TrimLeft` | app.py:206 | `lstrip()` part of `strip()`: the result is a suffix of the input, everything dropped is whitespace, and the result does not start with whitespace |
| `Text.TrimRight` | app.py:206 | `rstrip()` part of `strip()`: the result is a prefix of the input, everything dropped is whitespace, and the result does not end with whitespace |
| `Text.Strip` | app.py:206 | `strip()` returns text that neither starts nor ends with whitespace; it is empty exactly when the input is all whitespace |
| `Text.StripUnchanged` | app.py:206 | a text with no whitespace at either end is left as it is by `strip()` |
| `Text.RemoveChar` | app.py:217 | `replace('`', '')` leaves no backtick and never lengthens the text |
| `Text.RemoveCharCounts` | app.py:217 | removing a character keeps every other character with the same multiplicity |
| `Text.RemoveCharAppend` | app.py:217 | removing a character from a concatenation removes it from each part |
| `Text.RemoveCharAbsent` | app.py:217 | removing a character the text lacks leaves the text unchanged |
| `Text.Replace` | app.py:218-219 | `replace(a, b)` for single characters: every `a` becomes `b`, everything else is kept; `ReplaceAbsent` and `ReplaceExcludes` state its properties |
| `Text.ReplaceAbsent` | app.py:218-219 | replacing a character the text lacks leaves the text unchanged |
| `Text.ReplaceExcludes` | app.py:218-219 | a character other than the replacement that is missing before a replacement is missing after it |
| `Text.ContainsTrans` | app.py:210 | if `b in a` and `a in s`, then `b in s`; used to show that a word inside a longer word trips the check |
| `Text.Words` | app.py:220 | `split()` yields non-empty runs of non-whitespace; a text that starts with a non-blank has its leading run as the first word |
| `Text.TakeWord` | app.py:220 | the longest leading run of non-whitespace: a prefix of the text, free of whitespace, followed by whitespace or the end |
| `Text.WordsSkipSpace` | app.py:220 | leading whitespace does not change the words of `split()` |
| `Text.WordsCons` | app.py:220 | `split()` of a word followed by whitespace or nothing is that word followed by the words of the rest |
| `Text.Join` | app.py:220 | `sep.join(parts)`: the parts in order with `sep` between neighbours; `JoinHead`, `WordsOfJoin` and `SplitOnJoin` state its properties |
| `Text.JoinHead` | app.py:144 | a join starts with its first part |
| `Text.WellSpaced` | app.py:220 | the shape `' '.join(s.split())` produces: the only whitespace is single spaces between non-blanks; `CollapseFixedIff` states that it is exactly the fixed points of the collapse |
| `Text.CollapseSpaces` | app.py:220 | `' '.join(s.split())`: the words of `s` joined by single spaces; `CollapseFixedIff`, `CollapseIdempotent` and `CollapseKeepsPrefix` state its properties |
| `Text.JoinWordsWellSpaced` | app.py:220 | joining words with single spaces gives text whose only whitespace is single spaces between non-blanks |
| `Text.WordsOfJoin` | app.py:220 | `split()` of words joined by single spaces gives back those words |
| `Text.WellSpacedJoin` | app.py:220 | a well-spaced text is rebuilt exactly by `' '.join(s.split())` |
| `Text.CollapseFixedIff` | app.py:220 | `' '.join(s.split())` leaves `s` unchanged if and only if `s` is well spaced |
| `Text.CollapseIdempotent` | app.py:220 | collapsing whitespace twice gives the same text as collapsing it once |
| `Text.CollapseKeepsPrefix` | app.py:220 | a leading run of non-blanks survives the whitespace collapse in place |
| `Text.WordsExclude` | app.py:220 | a character absent from the text is absent from every word of its split |
| `Text.JoinExclude` | app.py:220 | a character absent from every part and from the separator is absent from the join |
| `Text.SplitOn` | app.py:144 | `s.split(c)` for one character, always at least one piece; used only to undo the join of line 144 |
| `Text.SplitOnPrefix` | app.py:144 | splitting a text that starts with a separator-free piece extends that piece by the first piece of the rest |
| `Text.SplitOnJoin` | app.py:144 | splitting `c.join(parts)` on `c` gives back `parts` when no part contains `c` |
| `SchemaContext.TableLine` | app.py:119-132 | the description line of each of the five tables, as the source writes it |
| `SchemaContext.Matches` | app.py:115-131 | the four keyword tests on the lower-cased query, one flag per table after the customers table; `SelectedTablesMembers` states what they select |
| `SchemaContext.MatchedUpTo` | app.py:122-132 | the tables whose test fired among the first `n` tests, in test order; `MatchedUpToMembers` and `MatchedUpToAscending` state its properties |
| `SchemaContext.Choose` | app.py:134-142 | the customers table followed by the matched tables, or all five tables when nothing matched; `ChooseMembers`, `ChooseShape` and `ChooseAllIff` state its properties |
| `SchemaContext.SelectedTables` | app.py:113-142 | the tables described for a query; `SelectedTablesMembers`, `SelectedTablesShape` and `AllTablesIff` state its properties |
| `SchemaContext.Lines` | app.py:119-142 | the description line of each table in the list, one per table |
| `SchemaContext.RelevantSchema` | app.py:113-144 | the newline join of the lines of the selected tables; `SchemaStartsWithCustomers` and `SchemaSplitsIntoLines` state its properties |
| `SchemaContext.GetRelevantSchema` | app.py:113-144 | returns exactly the newline join of the lines of `SelectedTables(query)`, built step by step as the source appends them |
| `SchemaContext.MatchedUpToMembers` | app.py:122-132 | table `u` is among the matched tables of the first `n` tests exactly when `u`'s test is one of them and it fired |
| `SchemaContext.MatchedUpToAscending` | app.py:122-132 | the matched tables come in strictly ascending table order, so there are no duplicates |
| `SchemaContext.ChooseMembers` | app.py:118-142 | the customers table is always chosen; another table is chosen exactly when its keyword test fired or no test fired |
| `SchemaContext.ChooseShape` | app.py:118-142 | between two and five tables are chosen, the customers table first, in strictly ascending order |
| `SchemaContext.ChooseAllIff` | app.py:134-142 | all five tables are chosen exactly when no test fired or every test fired |
| `SchemaContext.SelectedTablesMembers` | app.py:115-142 | for a query: table `u` is described exactly when `u` is the customers table, its keywords occur in the lower-cased query, or no keyword occurs at all |
| `SchemaContext.SelectedTablesShape` | app.py:115-142 | every schema has 2 to 5 lines, starts with the customers line, and lists the tables in ascending order without repeats |
| `SchemaContext.AllTablesIff` | app.py:134-142 | all five tables are described exactly when no keyword occurs or keywords of all four other tables occur |
| `SchemaContext.ShortQueryGetsAllTables` | app.py:115-142 | a query shorter than every keyword (in particular the empty query) gets all five tables |
| `SchemaContext.CreditSelectsScoresAndTransactions` | app.py:125-129 | `credit` is a keyword of both the credit-score and the transaction table, so a query mentioning it gets both |
| `SchemaContext.PaymentSelectsTransactionsAndLoans` | app.py:128-132 | `payment` is a keyword of both the transaction and the loan table, so a query mentioning it gets both |
| `SchemaContext.PremiumSelectsLoans` | app.py:131-132 | the substring test finds `emi` inside `premium`, so such a query gets the loan table |
| `SchemaContext.SchemaStartsWithCustomers` | app.py:119-144 | the schema text always starts with the customers line |
| `SchemaContext.NoNewlineInLine` | app.py:119-141 | no table line contains a line break |
| `SchemaContext.SchemaSplitsIntoLines` | app.py:144 | splitting the schema text at line breaks gives back exactly the chosen table lines |
| `SqlGate.HasBannedWord` | app.py:209-211 | some banned word occurs in the lower-cased text; `GateRejectsBannedWord`, `LegitimateColumnRejected` and `NoBannedWordWithoutLetters` reason about it |
| `SqlGate.StartsWithSelect` | app.py:213 | the lower-cased text starts with `select`; `SelectIsLetters` and `CleanUpKeepsSelect` state its properties |
| `SqlGate.Gate` | app.py:206-232 | the gate as a function of the reply: a failed call or a failed check gives the prefixed error, otherwise the `sql`-prefix strip of the cleaned stripped reply; `GateAccepts` and `GateRejects` state its accept and reject conditions |
| `SqlGate.CleanUp` | app.py:217-220 | the four clean-up steps in order: remove backticks, turn double quotes into single quotes, turn line feeds into spaces, collapse whitespace; `CleanUpShape`, `CleanUpFixedIff` and `CleanUpIdempotent` state its properties |
| `SqlGate.DropSqlPrefix` | app.py:223-224 | cuts a leading `sql`, in any case, and strips the rest; `SqlPrefixUnreachable` shows it never fires on a statement that starts with `select` |
| `SqlGate.GenerateSql` | app.py:206-232 | the gate step by step: every error carries the common prefix; a failed model call passes its message through; a banned word yields "Only SELECT statements are allowed"; otherwise a missing `select` yields "Query must start with SELECT"; success exactly when both checks pass; the statement returned is the clean-up of the stripped reply, starts with `select` and has no backtick, double quote or line break, with single spaces only |
| `SqlGate.CleanUpShape` | app.py:216-220 | the clean-up always yields text with no backtick, no double quote, no line break and single spaces only between non-blanks |
| `SqlGate.CleanUpFixedIff` | app.py:216-220 | the clean-up leaves a text unchanged if and only if the text already has that shape |
| `SqlGate.CleanUpIdempotent` | app.py:216-220 | cleaning an already cleaned statement changes nothing |
| `SqlGate.CleanUpKeepsSelect` | app.py:213-220 | a text that passed the `select` check still starts with `select` after the clean-up |
| `SqlGate.SelectIsLetters` | app.py:213 | a text that passes the `select` check starts with six ASCII letters |
| `SqlGate.SqlPrefixUnreachable` | app.py:213-224 | a statement that starts with `select` never starts with `sql`, so the prefix strip leaves it alone |
| `SqlGate.GateAccepts` | app.py:206-227 | a reply whose stripped text passes both checks is accepted, and the statement returned is its clean-up, which starts with `select` and has the clean shape |
| `SqlGate.GateRejects` | app.py:206-232 | the gate fails exactly on a failed model call, a banned word or a missing `select`, and every failure message starts with the common prefix |
| `SqlGate.GateRejectsNonSelect` | app.py:213-214 | a reply free of banned words that does not start with `select` is refused with the `select` message |
| `SqlGate.GateRejectsBannedWord` | app.py:209-211 | a reply containing any banned word, in any case, is refused with the banned-word message, even if it starts with `select` |
| `SqlGate.LegitimateColumnRejected` | app.py:209-211 | any reply that mentions the column `last_updated` is refused, since it contains `update` |
| `SqlGate.PassesUnchanged` | app.py:206-227 | a reply that has no whitespace at either end, passes both checks and already has the clean shape is returned unchanged |
| `SqlGate.SqlPrefixedReplyRejected` | app.py:213-224 | a reply that starts with `sql` is always refused, with the `select` message when it has no banned word |
| `SqlGate.PlainSelectPasses` | app.py:206-227 | `SELECT * FROM customers` passes the gate unchanged |
| `SqlGate.NoBannedWordWithoutLetters` | app.py:210 | a text without the letters i, p, d, n and a contains none of the banned words |
| `SqlGate.BacktickSmugglesBannedWord` | app.py:209-220 | ``select dr`op`` passes both checks, and the statement returned is `select drop`, which contains a banned word |
| `SqlGate.SmuggledBacktickRemoved` | app.py:217 | removing the one backtick from `a + "`" + b` gives `a + b` |
| `Classify.Normalized` | app.py:236 | `sql.strip().lower()`, the text `determine_query_type` inspects |
| `Classify.TypeName` | app.py:237-245 | the strings `determine_query_type` returns: `select`, `insert`, `update`, `delete` and `unknown` |
| `Classify.DetermineQueryType` | app.py:234-245 | the kind returned is one of select, insert, update and delete, and its name starts the stripped, lower-cased statement; `unknown` is returned exactly when no name starts it |
| `Classify.KindsExclusive` | app.py:237-244 | at most one of the four names can start a text |
| `Classify.DetermineQueryTypeUnique` | app.py:234-245 | any kind whose name starts the normalized statement is the kind returned, so the order of the tests does not matter |
| `Classify.AcceptedIsSelect` | app.py:236-238 | every statement the gate accepts is classified as `select` |
| `Classify.IsSafeQuery` | app.py:247-252 | true when none of `drop`, `truncate`, `alter`, `grant` and `revoke` occurs in the lower-cased statement; `SafeBeyondGate` relates it to the gate's banned words |
| `Classify.SafeBeyondGate` | app.py:247-252 | for a statement without banned words, `is_safe_query` is true exactly when neither `grant` nor `revoke` occurs in it |
| `Classify.GrantPassesGateButIsUnsafe` | app.py:247-252 | `select grant` passes the gate unchanged, yet `is_safe_query` calls it unsafe |
| `Classify.SmuggledDropIsUnsafe` | app.py:247-252 | `is_safe_query` would refuse the statement that ``select dr`op`` turns into after the gate |
| `Rows.Padded` | app.py:363 | zero-padding gives exactly `width` decimal digits |
| `Rows.PaddedRoundTrip` | app.py:363 | reading the padded digits back gives the number |
| `Rows.IsoDateRoundTrip` | app.py:362-363 | parsing `date.isoformat()` gives back the date |
| `Rows.IsoDate` | app.py:363 | `date.isoformat()`: `YYYY-MM-DD`, ten characters; `IsoDateRoundTrip` reads it back |
| `Rows.IsoTime` | app.py:363 | the time part of `datetime.isoformat()`: `HH:MM:SS`, then `.ffffff` only when the microseconds are not zero, so 8 or 15 characters; `IsoTimeRoundTrip` reads it back |
| `Rows.IsoDateTime` | app.py:363 | `datetime.isoformat()` of a naive datetime: the date, `T`, the time, so 19 or 26 characters; `IsoDateTimeRoundTrip` reads it back |
| `Rows.ParseIsoDate` | app.py:363 | reads back exactly the `YYYY-MM-DD` form of `IsoDate`; `IsoDateRoundTrip` states that it inverts `IsoDate` |
| `Rows.ParseIsoTime` | app.py:363 | reads back exactly the two forms of `IsoTime`; `IsoTimeRoundTrip` states that it inverts `IsoTime` |
| `Rows.IsoTimeRoundTrip` | app.py:362-363 | parsing the time part gives back the time of day, with or without microseconds |
| `Rows.IsoDateTimeRoundTrip` | app.py:362-363 | a datetime's ISO text has `T` at position 10; the ten characters before it parse back to the date, and the rest parses back to the time |
| `Rows.ConvertValue` | app.py:361-367 | other values pass through unchanged; a Decimal becomes the float given by the conversion function; a date becomes a string that parses back to the date; a datetime becomes a string of 19 characters, or 26 when its microseconds are not zero, whose first ten characters parse back to the date, followed by `T` and text that parses back to the time |
| `Rows.RecordUpTo` | app.py:359-367 | the dictionary after the first `n` columns are stored, a later column of the same name overwriting an earlier one; `RecordUpToKeys` and `RecordUpToLastWins` state its properties |
| `Rows.RowRecord` | app.py:359-367 | the dictionary of one row: all of its columns stored in order; `RowRecordEntries` and `DistinctColumnsRecord` state its properties |
| `Rows.Records` | app.py:356-368 | one record per row |
| `Rows.ConvertRows` | app.py:356-368 | the nested loops build exactly `Records(columns, rows)`: one dictionary per row, in row order |
| `Rows.RecordUpToKeys` | app.py:359-367 | after the first `n` columns, the keys of the dictionary are exactly the names of those columns |
| `Rows.RecordUpToLastWins` | app.py:359-367 | for a repeated column name, the dictionary holds the value of its last occurrence |
| `Rows.RowRecordEntries` | app.py:359-367 | a row's dictionary has every column name as a key, and the last column of a given name gives the value for that name |
| `Rows.DistinctColumnsRecord` | app.py:359-367 | with distinct column names, each column's converted value is stored under its own name; spelled out, an other value is stored as it is and a date as text that parses back to it |
| `Rows.QueryResponse` | app.py:343-376 | the response is a success that carries the statement and one converted record per row; an empty result gives `data` equal to `[]` |

## Left out

- The language-model call, the prompt of lines 152-202 and its API key: the reply is a parameter of `SqlGate.Gate`.
- Flask routing, templates, request parsing, JSON encoding and HTTP status codes.
- Database configuration and the connection, and the `/database` statistics route. The rows and their column names are parameters; `QueryResponse` takes the column names that the source reads from the first row.
- The error path of the `/api/query` handler around a failing statement or a failing model call: that is exception plumbing around calls into the database and the model.
- Logging and `traceback` output: no effect on results.
- `SCHEMA_INFO` (lines 66-111) is defined but never read by the query path.
- `Rows.ConvertValue`: `float(Decimal)` is the parameter `toFloat`. Binary floating-point rounding is not modelled.
- `Rows.ConvertValue`: time-zone offsets in `isoformat()` are not modelled; dates and datetimes are naive.
- `Rows.ConvertValue`: values other than dates, datetimes and Decimals are opaque scalars.
- `Rows.ConvertRows`: a record is a map, so the key order of the Python dictionary is not modelled.
- `Text.Lower` covers ASCII only. Python's `str.lower()` also maps other Unicode letters.
- `Text.Words` covers ASCII whitespace only. Python's `split()` also splits at other Unicode whitespace.
- `Text.Strip`, `Text.TrimLeft` and `Text.TrimRight` remove ASCII whitespace only. Python's `strip()` also removes other Unicode whitespace, such as the no-break space U+00A0, U+0085 and U+3000.
- `Text.Strip`: the contract does not itself say which slice of the input is kept. That is stated by `TrimLeft` and `TrimRight`, which `Strip` composes.
