# Officer feedback service: a Dafny model

This project models the core of a small officer-feedback service. Citizens
rate a police officer from 1 to 5 stars with an optional comment. An
Express server stores the ratings in PostgreSQL and serves aggregated
views. Two scripts replace the officer roster from a spreadsheet. A React
Native client searches the roster and submits the form.

The model is functional: the two tables are sequences of immutable rows
in a `Store`, and each endpoint, script and piece of client logic is a pure
function over them.

- `Schema` (schema.dfy) holds the `Officer` and `Feedback` rows, the store,
  the integrity the database keeps (`Valid`), the `ORDER BY` orderings, and
  exact `COUNT`/`SUM`/`AVG` aggregates.
- `Queries` (queries.dfy) writes each read endpoint as its SQL means:
  - the officer list, once as `LEFT JOIN` then `GROUP BY`, and once as
    `GROUP BY` then `LEFT JOIN`;
  - the per-officer feedback list;
  - the admin snapshot.

  Both officer-list forms are proved equal to one declarative reference,
  `ExpectedRatings`.
- `Ingest` (ingest.dfy) models `POST /api/feedback`.
- `Roster` (roster.dfy) models the PostgreSQL import script and the SQLite
  import script.
- `Client` (client.dfy) models the app's search, feedback form, star row
  and rating label.
- `Collections` (collections.dfy), `Strings` (strings.dfy), `Wrappers`
  (wrappers.dfy) and `Http` (http.dfy) are generic support: stable
  insertion sort and filter lemmas, code-point string order, ASCII
  lower-casing, substring search, `Option`, and the response shape.

Modelling choices:

- Averages are exact: a group is a `(count, sum)` pair, and its mean is a
  `real` that is 0 for an empty group.
- Timestamps are abstract clock readings (`nat`) supplied by the caller.
- SQL leaves the order of rows with equal sort keys open. The model fixes
  it with a stable sort, so equal keys keep table order.
- Text comparison is by code point, which is the C collation.

Behaviour of the code that the model reproduces:

- A submission without `is_anonymous` stores NULL. The column default
  `true` (import-to-cloud.js:40) never applies, because the handler passes
  the missing field to the INSERT explicitly (server.js:93).
- `GET /api/officers/:id/feedback` answers an id that no officer has with
  an empty list, not an error (server.js:74-75).
- `POST /api/feedback` does not check that the officer exists
  (server.js:86). The foreign key (import-to-cloud.js:37) rejects the row,
  and the handler answers 500, not 400 (server.js:96-99).
- An id from a request that lies outside PostgreSQL's `INTEGER` range makes
  the query fail, so both the per-officer list and the submission answer
  500 (server.js:74, 76-78, 91-98).
- The SQLite import deletes officers that still have feedback, because
  SQLite does not enforce foreign keys by default (import_excel.js:35). It
  orphans that feedback (`Roster.ImportExcelOrphans`).
- In the SQLite import, a qualifying row without a job title violates
  `NOT NULL` (setup_database.js:20). Its `stmt.run` has no callback
  (import_excel.js:54), so the error ends the process. The rows before it
  stay, no later row is inserted, and the count is never printed
  (import_excel.js:60-65).

## Model

| member | source | states |
|---|---|---|
| Strings.StrLeTotal | server.js:40 | Any two texts are comparable in the `ORDER BY` text order. |
| Strings.StrLeTransitive | server.js:61 | The text order is transitive. |
| Strings.StrLeAntisymmetric | server.js:130 | Two texts that sort before each other are equal. |
| Strings.Lower | App.tsx:239 | `toLowerCase` keeps the length, maps A–Z to a–z, and leaves no upper-case ASCII letter. |
| Strings.ContainsAtIndex | App.tsx:239 | `includes` holds exactly when the needle appears as a slice of the text at some index. |
| Collections.SortSorted | server.js:74 | The `ORDER BY` sort yields an ordered list for any total preorder; `Sort` itself keeps the multiset of rows. |
| Collections.FilterSort | server.js:146-149 | Filtering a sorted list gives the sort of the filtered list. This is why one global newest-first list can be split per officer. |
| Schema.NameLeTotalPreorder | server.js:40 | `ORDER BY last_name, first_name` is a total preorder. |
| Schema.AggForFeedbackOf | server.js:56-57 | An officer's count and rating sum are those of exactly the feedback rows that reference it. |
| Schema.AggForAppend | server.js:91-95 | Appending rows adds their aggregate to every officer's group. |
| Schema.AverageBounds | server.js:56 | In a valid store, `COALESCE(AVG(rating), 0)` is 0 when an officer has no feedback and lies in 1..5 otherwise. It is positive exactly when the officer has feedback. |
| Queries.ExpectedRatings | server.js:50-62 | Every officer appears once, sorted by last then first name, with its feedback count and exact mean. |
| Queries.GroupAggMatches | server.js:59 | One officer's joined rows feed its own group with its feedback, and feed every other group nothing. |
| Queries.GroupAggPresent | server.js:60 | Under the primary key, an officer's group aggregates exactly its own feedback. The NULL-extended row of an unrated officer does not count. |
| Queries.OfficersWithRatings | server.js:50-62 | One row per officer, each officer once, sorted by last then first name. The values are stated by `Queries.OfficersWithRatingsMeaning`. |
| Queries.OfficersWithRatingsMeaning | server.js:50-62 | The `LEFT JOIN`/`GROUP BY`/`COALESCE` query equals the reference ratings. |
| Queries.GroupByOfficerMeaning | server.js:32-39 | The grouped subquery has a row exactly for ids with feedback, and that row is the id's aggregate. |
| Queries.OfficersList | server.js:26-41 | One row per officer, each officer once, sorted by last then first name. The values are stated by `Queries.OfficersListMeaning`. |
| Queries.OfficersListMeaning | server.js:26-41 | The group-then-join query equals the reference ratings, even without the primary key. |
| Queries.OfficerEndpointsAgree | server.js:24-68 | `/api/officers` and `/api/officers-with-ratings` send the same values per officer, in the same order. The mean is named differently in each (`average_rating`, `avg_rating`). |
| Queries.FeedbackForOfficer | server.js:74 | The result is a permutation of the officer's rows, as many as its count, all with that officer id, and newest first. |
| Queries.GetOfficerFeedback | server.js:71-80 | 200 with the officer's list exactly when the id is an integer in PostgreSQL's `INTEGER` range. Any other id (not an integer, or out of range) gets 500 with the fixed message. |
| Queries.FeedbackForOfficerMembers | server.js:74-75 | The list holds exactly the rows with that officer id. It is empty, not an error, exactly when there are none. |
| Queries.AdminAllFeedback | server.js:108-160 | `total_feedback` is the number of feedback rows. There is one officer entry per officer, and each nested entry is a feedback row that references that officer. `Queries.AdminNestedFeedback` and `Queries.AdminTotals` state the rest. |
| Queries.AdminNestedFeedback | server.js:134-149 | Each officer's nested list is its per-officer list projected to the five columns. It is newest first, and its length is the officer's `feedback_count`. |
| Queries.CountsPartition | server.js:126 | Under the primary key, the officers' counts add up to the rows that reference some officer. |
| Queries.AdminTotals | server.js:111-155 | `total_feedback` is the number of feedback rows and equals the sum of the officers' counts. `overall_average_rating` is the mean of all ratings. |
| Ingest.Rejects | server.js:86 | The check accepts exactly a present non-zero officer id with a present rating in 1..5. It does not check that the officer exists. |
| Ingest.NormaliseText | server.js:93 | A missing or empty comment is stored as ''. Any other comment is stored as sent. |
| Ingest.Submit | server.js:83-100 | 400 with the fixed message and the store unchanged when the check fails. 500 with the fixed message and no row added when the officer id is outside the `INTEGER` range (store unchanged) or no officer has it. Otherwise 201 with the new row: the next id, the fields as sent, the normalised comment, and the clock reading. |
| Ingest.SubmitPreservesValid | server.js:91-99 | Every submission keeps the store valid: unique ids, resolved references, ratings in 1..5. |
| Ingest.SubmitThenList | server.js:74 | With a clock past every stored row, a new row comes first in its officer's list, ahead of the old list. Other officers' lists are unchanged. |
| Ingest.SubmitAggregates | server.js:56-57 | A new row adds one to its officer's count and its rating to the sum. Every other officer is unchanged. |
| Ingest.JaneDoeScenario | server.js:86-95 | A concrete run: a four-star submission without a comment is stored with '', and a follow-up without a rating gets 400. |
| Roster.TitledPrefix | import-to-cloud.js:60-73 | The length of the longest prefix whose rows all have a job title. The next row, if any, lacks one. |
| Roster.ImportLoopMeaning | import-to-cloud.js:59-73 | The loop inserts the qualifying rows in sheet order up to the first one without a title. It completes exactly when no qualifying row lacks one, and then counts every qualifying row. |
| Roster.ImportLoop | import-to-cloud.js:59-73 | The loop leaves the feedback table and its sequence alone, never removes officers or moves the officer sequence back, and never lowers the count. `Roster.ImportLoopMeaning` states what it inserts. |
| Roster.SetupAndImport | import-to-cloud.js:53-78 | The run never modifies the feedback table or its sequence, whether it ends in success or in the catch block. `Roster.SetupAndImportMeaning` states the officers it leaves. |
| Roster.SetupAndImportMeaning | import-to-cloud.js:53-78 | A blocked DELETE aborts with the store unchanged. Otherwise the officers are exactly the sheet's qualifying rows up to the first without a title. The run succeeds iff none lacks a title, and then `importedCount` is the number of qualifying rows, at most the sheet length. Feedback is never modified. |
| Roster.BlockedIffFeedback | import-to-cloud.js:37 | In a valid store the foreign key blocks the DELETE exactly when any feedback exists. |
| Roster.SetupAndImportValid | import-to-cloud.js:26-42 | The cloud import keeps a valid store valid in every outcome. |
| Roster.SetupAndImportReplaces | import-to-cloud.js:55 | After the DELETE goes through, no officer of the old roster remains. |
| Roster.NewOfficersIds | import-to-cloud.js:28 | Officers inserted in a run get consecutive, distinct ids from the sequence. |
| Roster.ExcelLoop | import_excel.js:47-57 | The loop leaves the feedback table and its sequence alone, never removes officers, and never lowers the count. `Roster.ExcelLoopMeaning` states what it inserts. |
| Roster.ImportExcelData | import_excel.js:33-65 | The import never modifies the feedback table or its sequence. `Roster.ImportExcelDataMeaning` states the officers it leaves. |
| Roster.ExcelMirrorsImport | import_excel.js:47-57 | The SQLite loop ends the same way as the PostgreSQL loop of import-to-cloud.js:59-73, with the same officers and count. Where a row lacks its title, the SQLite run draws no id and the PostgreSQL run draws one. |
| Roster.ExcelLoopMeaning | import_excel.js:47-65 | The loop stores the qualifying rows in sheet order up to the first one without a title, where the process ends. It completes exactly when no qualifying row lacks a title, and then counts every qualifying row. A refused row draws no id. |
| Roster.ImportExcelDataMeaning | import_excel.js:33-65 | After the import the officers are exactly the qualifying rows up to the first without a title, in sheet order. The run completes (and prints `importedCount`) exactly when every qualifying row has a title. `importedCount` is then the number of qualifying rows, at most `data.length`. |
| Roster.ExcelStopsAtMissingTitle | import_excel.js:53-57 | A sheet whose first qualifying row has no title ends the run with no officer stored, although a complete row follows. |
| Roster.ImportExcelOrphans | import_excel.js:35 | From a valid store, no feedback row references an officer after the import. |
| Roster.ImportExcelValid | import_excel.js:33-44 | The SQLite import keeps a valid store valid exactly when the store has no feedback. |
| Client.FilteredOfficers | App.tsx:236-241 | The result is a subsequence of the list, and every officer in it has a lower-cased "first last" that includes the lower-cased term. `Client.FilteredOfficersMeaning` adds the converse. |
| Client.FilteredOfficersMeaning | App.tsx:236-241 | The search result keeps list order and holds exactly the officers whose lower-cased "first last" includes the lower-cased term. |
| Client.EmptyTermShortcut | App.tsx:237 | The early return for an empty term gives the same list as filtering with it. |
| Client.SearchIgnoresCase | App.tsx:239 | Lower-casing the term first does not change the result. |
| Client.OnSelectionChange | App.tsx:203-207 | Deselecting resets the form to rating 0 and an empty comment. While an officer is selected the form is kept. |
| Client.SubmitHandler | App.tsx:209-222 | No body while the rating is 0. Otherwise the body carries the selected officer's id, the rating, the comment and `is_anonymous` 1. |
| Client.FormStaysInRange | App.tsx:77-81 | Starting, tapping a star and resetting keep the form's rating in 0..5. |
| Client.ResetBlocksSubmit | App.tsx:203-210 | After a reset neither the button nor the handler can submit. |
| Client.SubmitEnabled | App.tsx:98 | The button is enabled exactly when no request is in flight and a star is chosen. `Client.GuardsAgree` links it to the handler's guard. |
| Client.ToRequest | App.tsx:217-222 | The server's check accepts the body exactly when the officer id is non-zero and the rating lies in 1..5. The stored comment is the typed one, and the row is anonymous exactly when the client sends its flag 1. |
| Client.GuardsAgree | App.tsx:98 | With no request in flight, the button is enabled exactly when the handler would send a body. |
| Client.SubmitFromForm | App.tsx:217-222 | In a valid store, a body sent for a listed officer with a star chosen gets 201 exactly when the officer's id fits the `INTEGER` column. It is then stored with that id, rating and comment, marked anonymous. The store stays valid either way. |
| Client.StarRow | App.tsx:79 | The row has five stars, and star `i` (0..4) is filled exactly when `i` is below the rating, for any rating. |
| Client.StarRowMeaning | App.tsx:79 | For a rating in 0..5 the filled stars are exactly the first `rating` of the row. The admin rule `i < rating` (App.tsx line 139) fills the same stars. |
| Client.RatingLabel | App.tsx:31 | 'N/A' is shown exactly when the average is not positive. |
| Client.RatingLabelMeaning | App.tsx:130 | For rows the server sends from a valid store, 'N/A' appears exactly for officers with no feedback, and a shown average lies in 1..5. |

## Left out

- HTTP and Express plumbing are left out: routing, CORS, JSON parsing, `app.listen`, the `/test` route and logging.
- Database connections are left out: the pg `Pool` and its SSL settings, the sqlite3 connection lifecycle, and DDL execution. The schema is fixed and the store is abstract.
- Requests are independent atomic steps. Concurrency is left out, including the window between the admin endpoint's three queries.
- Request fields are integers, strings or booleans, or absent. JSON values of other types are left out, such as a rating of `2.5` or `"3"`, or an `officer_id` string. So is the coercion PostgreSQL would apply to them.
- Any store failure other than the foreign key is left out: lost connections, timeouts, and so on. The `try`/`catch` 500 paths are modelled for the foreign key and for an unreadable id parameter.
- A spreadsheet cell is a text or absent. Number and date cells of `sheet_to_json` are left out. So are `process.argv` handling and reading the file.
- Roster.ImportExcelData: the end of the process is a `Crashed` outcome holding the table as it stands. The process exit and the unprinted count are not modelled further.
- Sequence exhaustion is left out: the model's `SERIAL` and `AUTOINCREMENT` sequences are unbounded. PostgreSQL would fail an insert once `SERIAL` passes 2^31-1. So a model store can hold ids beyond `INTEGER`, and `Client.SubmitFromForm` states success only for ids within it.
- Queries.OfficerEndpointsAgree: the rows are compared as values. The column names (`average_rating` at server.js:30, `avg_rating` at server.js:56) and the extra `officers` columns of `o.*` are not modelled. The client reads `avg_rating` (App.tsx:31), so it would show 'N/A' for every officer if it called `/api/officers`.
- The server clock and `DEFAULT now()` are replaced by a `now` argument. Date formatting is left out.
- `ORDER BY` ties are broken by table order. The database promises no order among equal keys. Locale-aware collation is left out in favour of code-point order.
- Strings.Lower: lower-cases ASCII letters only, not full Unicode `toLowerCase`.
- Averages are exact rationals. `parseFloat`, `toFixed` and PostgreSQL's `numeric` rendering are display concerns and are left out.
- The client's React state, rendering, navigation, loading and error display, alerts, and the admin-data caching guard (App.tsx line 183) are left out. The client's `fetch` calls become direct calls of the modelled handlers.
- The SQLite schema of setup_database.js is not the one modelled. It differs from the PostgreSQL schema of import-to-cloud.js:26-42 in these ways:
  - `officer_id` is `INTEGER NOT NULL` (setup_database.js:32), where PostgreSQL allows NULL (import-to-cloud.js:37).
  - `is_anonymous` is `INTEGER DEFAULT 1` (setup_database.js:36), not `BOOLEAN DEFAULT true`.
  - `created_at` is `DATETIME` (setup_database.js:37), not `TIMESTAMPTZ`.
  - Ids use `AUTOINCREMENT` (setup_database.js:17, 31), not `SERIAL`. A failed insert therefore draws no id.
  - `rating` has a `CHECK` for 1..5 (setup_database.js:33), and there is an extra `interaction_type` column (setup_database.js:34). The `interaction_type` column is not modelled.
- Schema.Feedback: `officerId` is always an integer and never the NULL that the PostgreSQL column allows. No modelled operation produces one, because the POST check refuses a missing officer id (server.js:86).
- The value sent as `is_anonymous` reaches PostgreSQL as the text '1'. Values other than the client's constant 1 are not modelled.
