# express-jobly jobs core in Dafny

This project models the part of express-jobly that turns request data into SQL
for the `jobs` table:

- the three helpers of `helpers/sql.js`:
  - `sqlForPartialUpdate` builds the `SET` list of a partial update;
  - `createWhere` builds the `WHERE` selector of a filtered listing;
  - `checkIfExists` checks that a referenced row is present before an insert;
- the `Job` model of `models/job.js` (`create`, `get`, `getAll`, `update`,
  `delete`), which composes those helpers around one statement each.

Modules, one per concern:

- `Text` (`text.dfy`): the decimal rendering used for the `$n` placeholders
  and `Array.prototype.join`, with a reference layout for joins. It also holds
  the "suffix every part but the last" idiom that `createWhere` uses.
- `JsValues` (`values.dfy`): JavaScript values, truthiness, loose
  `!= undefined`, and plain objects. An object is its own properties in key
  order (a sequence of key/value entries). The module also holds property
  read/assignment and the application's error classes (`BadRequestError`,
  `NotFoundError`, and a statement the database rejects).
- `SqlHelpers` (`sql.dfy`): the three helpers as pure functions. Mappers are
  Dafny maps. The table `checkIfExists` reads is passed in as its rows.
- `JobModel` (`job.dfy`): the jobs and companies tables as a class
  `JobStore` whose methods are the five `Job` operations. The caller's filter
  object, which `getAll` rewrites in place, is a class `JsObject`. The
  statement texts of `update` and `getAll` are pure functions (`UpdateQuery`,
  `GetAllQuery`). The statements of `create`, `get` and `delete`, and the
  `SELECT` of `checkIfExists`, are not modelled as text; only the database's
  answer to them is. The database's answers are written out as functions
  over the table:
  - lookup by id;
  - `UPDATE ... SET`;
  - `DELETE`;
  - a `SELECT` filtered by `>`, `=` and `LIKE` conditions. Its result is
    `Kept(jobs, keep)`: the record of each row whose flag in `keep` is set,
    once each, in table order, with `keep` flagging the rows that satisfy
    every condition.

## Model

| member | source | states |
|---|---|---|
| Text.NatToString | helpers/sql.js:16 | the `$n` position is written as decimal digits, at least one and with no leading zero |
| Text.NatToStringRoundTrip | helpers/sql.js:16 | reading the digits of a placeholder back gives the position it was built for |
| Text.NatToStringInjective | helpers/sql.js:16 | distinct positions give distinct placeholder texts, so no two parameters share a `$n` |
| Text.Join | helpers/sql.js:21 | `Array.prototype.join`; its layout, n-1 separators between the n parts and none leading or trailing, is stated by Text.JoinIsInterleaved |
| Text.JoinIsInterleaved | helpers/sql.js:21 | `parts.join(sep)` is exactly the reference layout: n-1 separators, none leading or trailing |
| Text.SuffixedIsJoin | helpers/sql.js:36-43 | giving every condition but the last a trailing joiner and then joining with `""` produces the same text as joining with the joiner |
| JsValues.Property | models/job.js:87 | reading an absent key gives `undefined`; a present key gives the value of an entry with that key |
| JsValues.Assign | models/job.js:89 | assigning to an existing key keeps the object's keys and their order |
| JsValues.AssignEffect | models/job.js:88-93 | after `o[key] = v` the key reads `v` and every other property is unchanged |
| SqlHelpers.UpdateColumn | helpers/sql.js:16 | the column of a key: the mapped name when the mapper has a non-empty one, else the key; stated item by item in SqlHelpers.PartialUpdateLayout |
| SqlHelpers.SetSegments | helpers/sql.js:13-17 | the `SET` item of each key, numbered from 1; SqlHelpers.PartialUpdateLayout states item i is `"<column>"=$<i+1>` for the i-th key |
| SqlHelpers.SqlForPartialUpdate | helpers/sql.js:7-24 | refused with `BadRequest("No data")` exactly when the object has no keys; otherwise there is one value per key |
| SqlHelpers.PartialUpdateLayout | helpers/sql.js:13-23 | for n >= 1 keys: item i is `"<mapped column or key>"=$<i+1>`; items are separated by n-1 `", "` with none leading or trailing; values are the input's values in key order |
| SqlHelpers.PartialUpdateExample | helpers/sql.js:13-23 | `{title: "new title", salary: 1000}` with an empty mapper gives `"title"=$1, "salary"=$2` and the two values |
| SqlHelpers.Conditions | helpers/sql.js:33-40 | the condition of each key, numbered from 1; SqlHelpers.CreateWhereLayout states condition i is `<sqlString> <operator> $<i+1>` from the i-th key's mapper entry |
| SqlHelpers.CreateWhere | helpers/sql.js:27-46 | gives the empty result exactly for absent or key-less filters; fails with a `BadRequest` exactly when some key has no mapper entry; otherwise one value per key |
| SqlHelpers.CreateWhereLayout | helpers/sql.js:33-45 | for n >= 1 mapped keys the selector is `WHERE (` + conditions + `)`: condition i is `<sqlString> <operator> $<i+1>`, with n-1 `" AND "` joiners and none trailing; values are in key order |
| SqlHelpers.CreateWhereSingle | helpers/sql.js:33-45 | one mapped key gives `WHERE (<sqlString> <operator> $1)` with its value as the only parameter |
| SqlHelpers.CreateWhereExample | helpers/sql.js:33-45 | `{minSalary: 1001}` with the salary mapping gives `WHERE (salary > $1)` and `[1001]` |
| SqlHelpers.SelectEqualEmpty | helpers/sql.js:51-53 | the existence query returns no row exactly when no row has the value in the selected column |
| SqlHelpers.CheckIfExists | helpers/sql.js:48-55 | a falsy value answers `false` whatever the table holds; otherwise the answer is `true` exactly when some row matches |
| JobModel.WithIdFirst | models/job.js:50-56 | `WHERE id = $1` finds nothing exactly when no row has the id; otherwise its first row is the first row of the table with that id |
| JobModel.IdsUnique | models/job.js:18-23 | ids assigned in increasing order name at most one row each |
| JobModel.WithIdUnique | models/job.js:50-56 | with increasing ids, looking up the id of row k finds row k and nothing else |
| JobModel.WithoutAbsentId | models/job.js:166-173 | deleting an id no row has leaves the table unchanged |
| JobModel.WithoutPresentId | models/job.js:166-173 | deleting the id of row k removes exactly row k and keeps the others in order |
| JobModel.WithoutIdValid | models/job.js:166-173 | deleting by id keeps ids increasing and below the next id |
| JobModel.DeleteEffect | models/job.js:166-173 | the absent id returns nothing and keeps the table; the id of row k returns row k alone and removes exactly it; the id invariant is kept |
| JobModel.UpdateQuery | models/job.js:142-150 | the `UPDATE` statement and its parameters, or the error thrown before it is built; its contract is stated by JobModel.UpdateQueryOffsets |
| JobModel.UpdateQueryOffsets | models/job.js:142-150 | an empty update is `BadRequest("No data")`; otherwise the update values come first in key order, the id is the last parameter at position n+1, the `WHERE` placeholder names that position, and no `SET` placeholder does |
| JobModel.ApplySet | models/job.js:146-149 | a `SET` list never changes the id, and leaves every column it does not name as it was |
| JobModel.ApplySetAssigns | models/job.js:146-149 | every column named in the `SET` list ends up holding the value given for it |
| JobModel.UpdatedJobsAt | models/job.js:146-150 | with increasing ids, updating the id of row k rewrites row k and no other row |
| JobModel.UpdateOutcome | models/job.js:142-153 | the table after `update` and the record it returns, or the error; its contract is stated by JobModel.UpdateAbsentId and JobModel.UpdatePresentId |
| JobModel.UpdateAbsentId | models/job.js:142-153 | updating an id no row has changes nothing and returns an absent result, not an error |
| JobModel.UpdatePresentId | models/job.js:142-153 | updating the id of row k replaces row k alone and returns the new row, which keeps its id, holds every given value, and keeps every other column |
| JobModel.EquityRewrite | models/job.js:86-95 | the in-place rewrite of `hasEquity` and the operator it picks; its contract is stated by JobModel.EquityRewriteEffect |
| JobModel.EquityRewriteEffect | models/job.js:86-95 | a non-nullish `hasEquity` becomes `0` in place (same keys and order, other values untouched), with `>` for truthy and `=` for falsy; a nullish or absent one leaves the filters as they were and the operator unset |
| JobModel.EquityRewriteFlag | models/job.js:87-94 | `hasEquity: true` becomes `0` with `>`; `hasEquity: false` becomes `0` with `=` |
| JobModel.EquityRewriteNullish | models/job.js:86-87 | a `null` or `undefined` `hasEquity` is left as it is, and the mapper's equity operator becomes the text `undefined` |
| JobModel.OperatorText | models/job.js:103 | `${op}` of an unset operator is the text `undefined`; stated by JobModel.EquityRewriteNullish |
| JobModel.JobFilters | models/job.js:97-104 | the filter mapper knows exactly `minSalary`, `title` and `hasEquity`, stated by JobModel.RewriteKeysMapped; its `hasEquity` operator for an unset `op` is stated by JobModel.EquityRewriteNullish |
| JobModel.GetAllWhere | models/job.js:83-107 | no selector for absent or key-less filters, else createWhere over the rewritten filters; stated by JobModel.GetAllNoFilters, JobModel.GetAllUnknownKey and JobModel.GetAllKnownKeys |
| JobModel.GetAllQuery | models/job.js:79-115 | the statement getAll sends, or the error thrown before it; stated by JobModel.GetAllQueryAgrees, JobModel.GetAllNoFilters and the per-filter lemmas |
| JobModel.GetAllOutcome | models/job.js:78-117 | the rows getAll returns, or the error; stated by JobModel.GetAllNoFilters, JobModel.GetAllUnknownKey, JobModel.GetAllKnownKeys and the per-filter lemmas below |
| JobModel.RewriteKeysMapped | models/job.js:86-104 | after the rewrite, every key is in the job mapper exactly when every original key is `minSalary`, `title` or `hasEquity` |
| JobModel.LikeLiteral | models/job.js:100-101 | a `LIKE` pattern without `%` or `_` matches exactly the string it spells |
| JobModel.KeptCount | models/job.js:110-117 | there is exactly one record per flagged row |
| JobModel.KeptAt | models/job.js:110-117 | the record of flagged row i sits right after the records of the flagged rows before it; with JobModel.KeptCount, the result is the flagged rows' records, each once, in table order |
| JobModel.KeptMembers | models/job.js:110-117 | a record is kept exactly when it is the record of a flagged row |
| JobModel.KeptAll | models/job.js:110-117 | with every row flagged, the result is the record of every row, in table order |
| JobModel.SelectJobsMembers | models/job.js:110-117 | a record is returned exactly when it is the record of a row satisfying every condition; `SelectJobs` is `Kept` of the rows satisfying every condition, so the Kept lemmas give one record per such row |
| JobModel.GetAllQueryAgrees | models/job.js:97-115 | getAll sends no statement exactly when createWhere throws, and the caller then gets that `BadRequest` |
| JobModel.GetAllNoFilters | models/job.js:78-117 | absent or empty filters send no `WHERE` selector and no parameters, and the result is the record of every row of the table, each once, in table order |
| JobModel.GetAllUnknownKey | models/job.js:97-104 | a filter key other than `minSalary`, `title` and `hasEquity` is a `BadRequest`, and only such a key is |
| JobModel.GetAllKnownKeys | models/job.js:83-115 | non-empty filters whose keys are all `minSalary`, `title` or `hasEquity`: the statement names the operator `undefined`, and fails, exactly when `hasEquity` is present and `null` or `undefined`; otherwise every condition names a column of the table and an SQL operator, and the select returns its rows |
| JobModel.GetAllOneFilter | models/job.js:97-115 | a one-key filter the mapper knows gives `WHERE (<column> <operator> $1)` with the rewritten value as the only parameter, and selects by that one condition |
| JobModel.GetAllTitleRows | models/job.js:100-101 | `title LIKE $1` returns `Kept` of the rows whose title matches; for a wildcard-free title, `Kept` of the rows with exactly that title |
| JobModel.GetAllTitle | models/job.js:97-117 | `{title}` sends `WHERE (title LIKE $1)` with the title; the result is `Kept` of the rows whose title matches, or for a wildcard-free title of the rows with exactly that title (one record each, in table order) |
| JobModel.GetAllMinSalaryRows | models/job.js:98-99 | `salary > $1` returns `Kept` of exactly the rows whose salary exceeds the bound |
| JobModel.GetAllMinSalary | models/job.js:97-117 | `{minSalary}` sends `WHERE (salary > $1)` with `[minSalary]`; the result is `Kept` of the rows with a larger salary (one record each, in table order) |
| JobModel.GetAllHasEquityRows | models/job.js:102-103 | `equity > 0` or `equity = 0` returns `Kept` of exactly the rows whose equity is above zero or zero |
| JobModel.GetAllHasEquity | models/job.js:86-117 | `{hasEquity: true}` sends `WHERE (equity > $1)` with `[0]` and returns `Kept` of the rows with equity; `{hasEquity: false}` sends `WHERE (equity = $1)` with `[0]` and returns `Kept` of the rows with zero equity |
| JobModel.NullEquityUndefinedOperator | models/job.js:86-103 | as written, `{hasEquity: null}` sends `WHERE (equity undefined $1)` and the statement fails |
| JobModel.GetAllFixedNeverFails | models/job.js:86-103 | with a nullish `hasEquity` dropped instead, getAll never sends a condition with a column or operator SQL lacks, and agrees with the code as written whenever `hasEquity` is absent or not nullish |
| JobModel.EquityRewriteFixed | models/job.js:86-95 | corrected rewrite that drops a nullish `hasEquity`; its effect is stated by JobModel.GetAllFixedNeverFails |
| JobModel.GetAllOutcomeFixed | models/job.js:78-117 | getAll with the corrected rewrite; stated by JobModel.GetAllFixedNeverFails: never a column or operator SQL lacks, and the same answer as the code as written when `hasEquity` is absent or not nullish |
| JobModel.JobStore.Create | models/job.js:16-27 | without a company row for the handle: `BadRequest("No company with handle <handle>")`, nothing inserted; otherwise one row with the next id and the given fields is appended and its record returned; ids stay increasing |
| JobModel.JobStore.Get | models/job.js:48-57 | `NotFound` exactly when no row has the id; otherwise the record of the first row with it |
| JobModel.JobStore.GetAll | models/job.js:78-118 | rewrites the caller's `hasEquity` in place as the rewrite function says; the rows returned and the statement sent (none when createWhere throws) are those of the query and outcome functions for the original filters |
| JobModel.JobStore.Update | models/job.js:142-153 | the new table and the result are those of the update outcome (error, absent, or the updated record), and ids stay increasing |
| JobModel.JobStore.Delete | models/job.js:166-174 | an absent id returns nothing and keeps the table; the id of row k returns row k's record and removes exactly that row; ids stay increasing |

## Left out

- The HTTP routes, JSON-schema validation and the admin check in `routes/jobs.js` are not part of this model. They are framework glue and external libraries.
- The database is not executed. Each statement's effect on the tables is written out as a function. Async sequencing, connections and database errors other than a rejected statement are not modelled.
- `ORDER BY title` in getAll is not modelled. Rows come back in table order, so the properties fix which records come back and how many, but not the order by title.
- Type coercion by the database is not modelled. For example, `equity` comes back as the decimal string `'0'`. The model takes the id as an integer. The source passes the route's string `req.params.id` straight through, and the database coerces it when it binds `$1`. Records carry ids as numbers. Numbers are exact reals, with no floating-point rounding and no NaN.
- `Object.keys` order is insertion order over string keys. The integer-like keys that JavaScript sorts first are not modelled.
- SqlHelpers.UpdateColumn: `jsToSql[colName] || colName` is modelled over the mapper's own entries only. Keys inherited from `Object.prototype` are not modelled.
- SqlHelpers.CreateWhere: a mapper entry is an object and so always truthy. The mapper is modelled over its own entries only. A key that names an inherited `Object.prototype` member (`toString`, `constructor`, ...) is modelled as unknown, a `BadRequest`. The source finds the inherited function, passes its guard, writes `undefined undefined $n`, and the database then rejects the statement.
- JobModel.GetAllUnknownKey: "only such a key is a `BadRequest`" holds of the model. In the source, a filter key naming an inherited `Object.prototype` member is not a `BadRequest` but a statement the database rejects.
- JobModel.GetAllKnownKeys: bound values are not checked against the column types. A mistyped value, such as `getAll({minSalary: "abc"})`, makes its condition false and the result empty in the model, while the database rejects binding `'abc'` to the integer `salary` column. So "otherwise the rows come back" holds only for values of the column's type.
- JobModel.GetAllFixedNeverFails: "never fails" means no condition with a column or operator SQL lacks. A bound value of the wrong type, which the database rejects, is not modelled, as for JobModel.GetAllKnownKeys.
- JobModel.JobStore.Create: the company handle is taken as a string. The message for a non-string handle (`undefined`, a number) is not modelled. The insert's own database errors are not modelled, such as a `NOT NULL` violation on the title.
- JobModel.UpdateOutcome: a `SET` list naming the id or a column the table lacks, or naming a column twice, is modelled as a rejected statement. An update naming the id is modelled as rejected, but the source's statement would run, for example `SET "id"=$1`, and change the id. The foreign-key check on a new `company_handle` is not modelled.
- JobModel.Like: `LIKE` is modelled without an escape character.
- The default message of `NotFoundError` and of a message-less `BadRequestError` lives in `expressError.js`, which is not part of this model. Both are modelled as the empty string.
- The newlines and indentation of the source's template literals are written as single spaces around each interpolated part. So an empty `WHERE` selector leaves two spaces in `... FROM jobs  ORDER BY title`. Statement texts are compared as written here, not byte for byte with the source's template literals.
- JobModel.JobStore.constructor and JobModel.JsObject.constructor stand for the tables and filter objects the tests set up. The test fixtures themselves are not part of this model.

## Findings

| source | as written | input that shows it | evidently intended | confidence | as-written member | corrected member |
|---|---|---|---|---|---|---|
| models/job.js:86-103 | when `filters.hasEquity` is `null` or `undefined` the rewrite is skipped, `op` stays unset, and the mapper's operator becomes the text `undefined` | `getAll({hasEquity: null})` sends `WHERE (equity undefined $1)` with `[null]`, which the database rejects | a nullish `hasEquity` means "no equity filter" and is dropped | not executed | JobModel.NullEquityUndefinedOperator | JobModel.GetAllFixedNeverFails |

The corrected behaviour is `JobModel.EquityRewriteFixed` and
`JobModel.GetAllOutcomeFixed`. `JobModel.JobStore.GetAll` keeps the behaviour
of the code as written.
