/** The `Job` model of models/job.js: create, get, getAll, update and delete
    over the jobs table, with the companies table consulted by create.

    The backing store is modelled by its tables: `jobs` as a sequence of job
    records in table order, `companies` as rows (column name to value).
    Each operation issues one statement (create two) and the store's answer
    is written out here: the rows a `WHERE id = $1` finds, the row an
    `INSERT ... RETURNING` produces, and so on. */
module JobModel {
  import opened JsValues
  import opened Text
  import opened SqlHelpers

  // ---------------------------------------------------------------------
  // The jobs table
  // ---------------------------------------------------------------------

  /** A row of the jobs table. `id` is assigned by the store on insert. */
  datatype Job = Job(id: int, title: Value, salary: Value, equity: Value, companyHandle: Value)

  /** The record a statement ending in
      `RETURNING id, title, salary, equity, company_handle AS "companyHandle"` gives. */
  function Returned(job: Job): Row {
    map["id" := Num(job.id as real), "title" := job.title, "salary" := job.salary,
        "equity" := job.equity, "companyHandle" := job.companyHandle]
  }

  /** The record `SELECT *` (or the explicit column list of getAll) gives:
      the table's own column names, so the handle comes back as `company_handle`. */
  function Selected(job: Job): Row {
    map["id" := Num(job.id as real), "title" := job.title, "salary" := job.salary,
        "equity" := job.equity, "company_handle" := job.companyHandle]
  }

  predicate IsJobColumn(column: string) {
    column == "id" || column == "title" || column == "salary" || column == "equity" || column == "company_handle"
  }

  /** The value of a column of a job row (`NULL` for a column the table does not have). */
  function ColumnValue(job: Job, column: string): Value {
    if column == "id" then Num(job.id as real)
    else if column == "title" then job.title
    else if column == "salary" then job.salary
    else if column == "equity" then job.equity
    else if column == "company_handle" then job.companyHandle
    else Null
  }

  /** The jobs `WHERE id = $1` finds, in table order. */
  function WithId(jobs: seq<Job>, id: int): seq<Job> {
    if jobs == [] then []
    else (if jobs[0].id == id then [jobs[0]] else []) + WithId(jobs[1..], id)
  }

  /** `WHERE id = $1` finds nothing exactly when no row has the id, and
      otherwise its first row is the first row of the table with that id. */
  lemma {:induction false} WithIdFirst(jobs: seq<Job>, id: int)
    ensures |WithId(jobs, id)| == 0 <==> forall i :: 0 <= i < |jobs| ==> jobs[i].id != id
    ensures |WithId(jobs, id)| != 0 ==>
      exists k :: 0 <= k < |jobs| && jobs[k].id == id && WithId(jobs, id)[0] == jobs[k]
        && forall j :: 0 <= j < k ==> jobs[j].id != id
  {
    if jobs != [] {
      WithIdFirst(jobs[1..], id);
      if jobs[0].id == id {
        assert WithId(jobs, id)[0] == jobs[0];
      } else {
        assert WithId(jobs, id) == WithId(jobs[1..], id);
        if |WithId(jobs, id)| != 0 {
          var k :| 0 <= k < |jobs[1..]| && jobs[1..][k].id == id && WithId(jobs[1..], id)[0] == jobs[1..][k]
            && forall j :: 0 <= j < k ==> jobs[1..][j].id != id;
          assert jobs[k + 1] == jobs[1..][k];
          forall j | 0 <= j < k + 1 ensures jobs[j].id != id {
            if j > 0 { assert jobs[j] == jobs[1..][j - 1]; }
          }
        }
      }
      forall i | 0 <= i < |jobs| - 1 ensures jobs[1..][i] == jobs[i + 1] { }
    }
  }

  /** The jobs left after `DELETE FROM jobs WHERE id = $1`. */
  function WithoutId(jobs: seq<Job>, id: int): seq<Job> {
    if jobs == [] then []
    else (if jobs[0].id == id then [] else [jobs[0]]) + WithoutId(jobs[1..], id)
  }

  /** Ids strictly increase in table order: the store assigns them from a
      sequence and never changes them. */
  ghost predicate IdsIncreasing(jobs: seq<Job>) {
    forall i, j :: 0 <= i < j < |jobs| ==> jobs[i].id < jobs[j].id
  }

  /** Increasing ids are distinct: an id names at most one row. */
  lemma {:induction false} IdsUnique(jobs: seq<Job>, i: nat, j: nat)
    requires IdsIncreasing(jobs) && i < |jobs| && j < |jobs|
    ensures jobs[i].id == jobs[j].id <==> i == j
  {
  }

  /** With increasing ids, `WHERE id = $1` on the id of row k finds row k and nothing else. */
  lemma {:induction false} WithIdUnique(jobs: seq<Job>, k: nat)
    requires IdsIncreasing(jobs) && k < |jobs|
    ensures WithId(jobs, jobs[k].id) == [jobs[k]]
  {
    var id := jobs[k].id;
    if k == 0 {
      forall i | 0 <= i < |jobs[1..]| ensures jobs[1..][i].id != id {
        assert jobs[1..][i] == jobs[i + 1];
      }
      WithIdFirst(jobs[1..], id);
    } else {
      assert jobs[0].id < id;
      assert jobs[1..][k - 1] == jobs[k];
      WithIdUnique(jobs[1..], k - 1);
    }
  }

  /** Deleting an id that no row has leaves the table as it is. */
  lemma {:induction false} WithoutAbsentId(jobs: seq<Job>, id: int)
    requires forall i :: 0 <= i < |jobs| ==> jobs[i].id != id
    ensures WithoutId(jobs, id) == jobs
  {
    if jobs != [] {
      assert jobs[0].id != id;
      WithoutAbsentId(jobs[1..], id);
    }
  }

  /** Deleting the id of row k removes exactly row k and keeps the order of the others. */
  lemma {:induction false} WithoutPresentId(jobs: seq<Job>, k: nat)
    requires IdsIncreasing(jobs) && k < |jobs|
    ensures WithoutId(jobs, jobs[k].id) == jobs[..k] + jobs[k + 1..]
  {
    var id := jobs[k].id;
    if k == 0 {
      WithoutAbsentId(jobs[1..], id);
      assert jobs[..0] + jobs[1..] == jobs[1..];
    } else {
      assert jobs[1..][k - 1] == jobs[k];
      WithoutPresentId(jobs[1..], k - 1);
      assert jobs[1..][..k - 1] + jobs[1..][k..] == jobs[1..k] + jobs[k + 1..];
      assert jobs[..k] + jobs[k + 1..] == [jobs[0]] + (jobs[1..k] + jobs[k + 1..]);
    }
  }

  /** Deleting by id keeps the ids increasing and below any bound they were below. */
  lemma {:induction false} WithoutIdValid(jobs: seq<Job>, id: int, bound: int)
    requires IdsIncreasing(jobs) && forall i :: 0 <= i < |jobs| ==> jobs[i].id < bound
    ensures IdsIncreasing(WithoutId(jobs, id))
    ensures forall i :: 0 <= i < |WithoutId(jobs, id)| ==> jobs[0].id <= WithoutId(jobs, id)[i].id < bound
  {
    if jobs != [] {
      var rest := WithoutId(jobs[1..], id);
      WithoutIdValid(jobs[1..], id, bound);
      if |jobs| > 1 {
        assert jobs[0].id < jobs[1].id;
      } else {
        assert rest == [];
      }
    }
  }

  /** What `DELETE FROM jobs WHERE id = $1 RETURNING ...` does on a table
      with increasing ids: with no such row, it returns nothing and keeps the
      table; with row k having the id, it returns row k alone and removes it. */
  lemma {:induction false} DeleteEffect(jobs: seq<Job>, id: int, bound: int)
    requires IdsIncreasing(jobs) && forall i :: 0 <= i < |jobs| ==> jobs[i].id < bound
    ensures IdsIncreasing(WithoutId(jobs, id))
    ensures forall i :: 0 <= i < |WithoutId(jobs, id)| ==> WithoutId(jobs, id)[i].id < bound
    ensures (forall i :: 0 <= i < |jobs| ==> jobs[i].id != id) ==>
      WithId(jobs, id) == [] && WithoutId(jobs, id) == jobs
    ensures forall k :: 0 <= k < |jobs| && jobs[k].id == id ==>
      WithId(jobs, id) == [jobs[k]] && WithoutId(jobs, id) == jobs[..k] + jobs[k + 1..]
  {
    WithoutIdValid(jobs, id, bound);
    WithIdFirst(jobs, id);
    if forall i :: 0 <= i < |jobs| ==> jobs[i].id != id {
      WithoutAbsentId(jobs, id);
    }
    forall k | 0 <= k < |jobs| && jobs[k].id == id
      ensures WithId(jobs, id) == [jobs[k]] && WithoutId(jobs, id) == jobs[..k] + jobs[k + 1..]
    {
      WithIdUnique(jobs, k);
      WithoutPresentId(jobs, k);
    }
  }

  // ---------------------------------------------------------------------
  // update: the statement and its effect
  // ---------------------------------------------------------------------

  /** A statement sent to the store: its text and its positional parameters. */
  datatype Query = Query(text: string, params: seq<Value>)

  const ReturningClause := "RETURNING id, title, salary, equity, company_handle AS \"companyHandle\""

  /** The statement `update` sends: the `SET` list from the partial-update
      builder with an empty mapper, then `WHERE id = $<values.length + 1>`,
      with the id appended after the update values. Layout whitespace of the
      source's template is written as single spaces. */
  function UpdateQuery(updateData: Obj, id: int): Result<Query> {
    var clause := SqlForPartialUpdate(updateData, map[]);
    if clause.Err? then Err(clause.error)
    else
      var idIndex := |clause.value.values| + 1;
      Ok(Query("UPDATE jobs SET " + clause.value.setCols + " WHERE id = $" + NatToString(idIndex)
               + " " + ReturningClause,
               clause.value.values + [Num(id as real)]))
  }

  /** For a non-empty update the id is the last parameter, at position
      (number of update values + 1), which the `WHERE` placeholder names and
      no `SET` placeholder does; the update values come first, in key order.
      An empty update is refused before any statement is built. */
  lemma {:induction false} UpdateQueryOffsets(updateData: Obj, id: int)
    ensures |updateData| == 0 ==> UpdateQuery(updateData, id) == Err(BadRequest("No data"))
    ensures |updateData| != 0 ==>
      var r := UpdateQuery(updateData, id);
      var n := |updateData|;
      && r.Ok?
      && |r.value.params| == n + 1
      && r.value.params[n] == Num(id as real)
      && (forall i :: 0 <= i < n ==> r.value.params[i] == updateData[i].value)
      && r.value.text == "UPDATE jobs SET " + SqlForPartialUpdate(updateData, map[]).value.setCols
                         + " WHERE id = $" + NatToString(|r.value.params|) + " " + ReturningClause
      && DigitsValue(NatToString(|r.value.params|)) == n + 1
      && (forall p :: 1 <= p <= n ==> NatToString(p) != NatToString(|r.value.params|))
  {
    if |updateData| != 0 {
      PartialUpdateLayout(updateData, map[]);
      NatToStringRoundTrip(|updateData| + 1);
      forall p | 1 <= p <= |updateData|
        ensures NatToString(p) != NatToString(|updateData| + 1)
      {
        NatToStringInjective(p, |updateData| + 1);
      }
    }
  }

  /** The columns an update may assign (the id is the store's own). */
  predicate IsSettableColumn(column: string) {
    column == "title" || column == "salary" || column == "equity" || column == "company_handle"
  }

  predicate AllSettable(updateData: Obj) {
    forall i :: 0 <= i < |updateData| ==> IsSettableColumn(updateData[i].key)
  }

  /** One `"<column>"=$k` assignment applied to a row. */
  function SetColumn(job: Job, column: string, v: Value): Job
    requires IsSettableColumn(column)
  {
    if column == "title" then job.(title := v)
    else if column == "salary" then job.(salary := v)
    else if column == "equity" then job.(equity := v)
    else job.(companyHandle := v)
  }

  /** The row after all the assignments of a `SET` list. */
  function ApplySet(job: Job, updateData: Obj): (job': Job)
    requires AllSettable(updateData)
    ensures job'.id == job.id
    ensures forall column :: !HasKey(updateData, column) ==> ColumnValue(job', column) == ColumnValue(job, column)
    decreases |updateData|
  {
    if updateData == [] then job
    else
      var job1 := SetColumn(job, updateData[0].key, updateData[0].value);
      assert forall column :: column != updateData[0].key ==> ColumnValue(job1, column) == ColumnValue(job, column);
      assert forall column :: HasKey(updateData[1..], column) ==> HasKey(updateData, column) by {
        forall column | HasKey(updateData[1..], column) ensures HasKey(updateData, column) {
          var i :| 0 <= i < |updateData[1..]| && updateData[1..][i].key == column;
          assert updateData[i + 1].key == column;
        }
      }
      ApplySet(job1, updateData[1..])
  }

  /** Each column named in a `SET` list (names distinct) ends up holding the value given for it. */
  lemma {:induction false} ApplySetAssigns(job: Job, updateData: Obj)
    requires AllSettable(updateData) && DistinctKeys(updateData)
    ensures forall i :: 0 <= i < |updateData| ==>
      ColumnValue(ApplySet(job, updateData), updateData[i].key) == updateData[i].value
    decreases |updateData|
  {
    if updateData != [] {
      var job1 := SetColumn(job, updateData[0].key, updateData[0].value);
      var rest := updateData[1..];
      ApplySetAssigns(job1, rest);
      forall i | 0 <= i < |rest| ensures rest[i].key != updateData[0].key {
        assert rest[i] == updateData[i + 1];
      }
      forall i | 0 <= i < |updateData|
        ensures ColumnValue(ApplySet(job, updateData), updateData[i].key) == updateData[i].value
      {
        if i > 0 { assert updateData[i] == rest[i - 1]; }
      }
    }
  }

  /** The table after `UPDATE jobs SET ... WHERE id = $n`. */
  function UpdatedJobs(jobs: seq<Job>, updateData: Obj, id: int): seq<Job>
    requires AllSettable(updateData)
  {
    seq(|jobs|, i requires 0 <= i < |jobs| => if jobs[i].id == id then ApplySet(jobs[i], updateData) else jobs[i])
  }

  /** With increasing ids, updating the id of row k rewrites row k and no other. */
  lemma {:induction false} UpdatedJobsAt(jobs: seq<Job>, updateData: Obj, k: nat)
    requires IdsIncreasing(jobs) && k < |jobs| && AllSettable(updateData)
    ensures UpdatedJobs(jobs, updateData, jobs[k].id) == jobs[k := ApplySet(jobs[k], updateData)]
  {
    forall i | 0 <= i < |jobs|
      ensures UpdatedJobs(jobs, updateData, jobs[k].id)[i] == jobs[k := ApplySet(jobs[k], updateData)][i]
    {
      if i != k { IdsUnique(jobs, i, k); }
    }
  }

  /** What `update` does: the table afterwards and the record it returns
      (`None` for `result.rows[0]` of an empty result). An empty update is a
      `BadRequest`; a `SET` list the store cannot run (a column the table
      lacks, the id column, a column named twice) is a failed query. */
  function UpdateOutcome(jobs: seq<Job>, updateData: Obj, id: int): Result<(seq<Job>, Option<Row>)> {
    var query := UpdateQuery(updateData, id);
    if query.Err? then Err(query.error)
    else if !AllSettable(updateData) || !DistinctKeys(updateData) then Err(QueryFailed)
    else
      var matched := WithId(jobs, id);
      Ok((UpdatedJobs(jobs, updateData, id),
          if |matched| == 0 then None else Some(Returned(ApplySet(matched[0], updateData)))))
  }

  /** Updating an id that no row has changes nothing and returns an absent
      result, not an error. */
  lemma {:induction false} UpdateAbsentId(jobs: seq<Job>, updateData: Obj, id: int)
    requires |updateData| != 0 && AllSettable(updateData) && DistinctKeys(updateData)
    requires forall i :: 0 <= i < |jobs| ==> jobs[i].id != id
    ensures UpdateOutcome(jobs, updateData, id) == Ok((jobs, None))
  {
    WithIdFirst(jobs, id);
    assert UpdatedJobs(jobs, updateData, id) == jobs;
  }

  /** Updating the id of row k changes row k alone: it keeps its id, every
      named column takes its new value, every other column keeps its old one,
      and the returned record is the new row. */
  lemma {:induction false} UpdatePresentId(jobs: seq<Job>, updateData: Obj, k: nat)
    requires IdsIncreasing(jobs) && k < |jobs|
    requires |updateData| != 0 && AllSettable(updateData) && DistinctKeys(updateData)
    ensures var id := jobs[k].id;
      var job' := ApplySet(jobs[k], updateData);
      && UpdateOutcome(jobs, updateData, id) == Ok((jobs[k := job'], Some(Returned(job'))))
      && job'.id == id
      && (forall i :: 0 <= i < |updateData| ==> ColumnValue(job', updateData[i].key) == updateData[i].value)
      && (forall column :: !HasKey(updateData, column) ==> ColumnValue(job', column) == ColumnValue(jobs[k], column))
  {
    WithIdUnique(jobs, k);
    UpdatedJobsAt(jobs, updateData, k);
    ApplySetAssigns(jobs[k], updateData);
  }

  // ---------------------------------------------------------------------
  // getAll: filter preprocessing, the statement, and the rows
  // ---------------------------------------------------------------------

  /** The rewrite getAll makes before building the `WHERE` clause: when
      `filters.hasEquity != undefined`, the value becomes `0` and the
      operator is `>` if the original value was truthy and `=` if not;
      otherwise the filters are untouched and the operator stays unset. */
  function EquityRewrite(filters: Obj): (Obj, Option<string>) {
    var hasEquity := Property(filters, "hasEquity");
    if NotNullish(hasEquity) then
      (Assign(filters, "hasEquity", Num(0.0)), Some(if Truthy(hasEquity) then ">" else "="))
    else (filters, None)
  }

  /** What the rewrite does: a non-nullish `hasEquity` becomes `0` in place
      (same keys, same order, other values untouched) with `>` chosen for a
      truthy value and `=` for a falsy one; a nullish or absent one leaves
      the filters as they were and the operator unset. */
  lemma {:induction false} EquityRewriteEffect(filters: Obj)
    ensures var (filters', op) := EquityRewrite(filters);
      var hasEquity := Property(filters, "hasEquity");
      && Keys(filters') == Keys(filters)
      && (forall i :: 0 <= i < |filters| && filters[i].key != "hasEquity" ==> filters'[i] == filters[i])
      && (NotNullish(hasEquity) ==>
            Property(filters', "hasEquity") == Num(0.0)
            && op == Some(if Truthy(hasEquity) then ">" else "="))
      && (!NotNullish(hasEquity) ==> filters' == filters && op.None?)
  {
    if NotNullish(Property(filters, "hasEquity")) {
      AssignEffect(filters, "hasEquity", Num(0.0));
    }
  }

  /** `${op}`: an unset operator is interpolated as the text `undefined`. */
  function OperatorText(op: Option<string>): string {
    if op.Some? then op.value else "undefined"
  }

  /** The filter mapper getAll passes to createWhere. */
  function JobFilters(op: Option<string>): map<string, FilterColumn> {
    map["minSalary" := FilterColumn("salary", ">"),
        "title" := FilterColumn("title", "LIKE"),
        "hasEquity" := FilterColumn("equity", OperatorText(op))]
  }

  predicate IsFilterKey(key: string) {
    key == "minSalary" || key == "title" || key == "hasEquity"
  }

  /** The `WHERE` clause getAll builds: none for absent or key-less filters,
      else createWhere over the rewritten filters and the job mapper. */
  function GetAllWhere(filters: Option<Obj>): Result<WhereClause> {
    if filters.None? || |filters.value| == 0 then Ok(NoClause)
    else
      var (filters', op) := EquityRewrite(filters.value);
      CreateWhere(Some(filters'), JobFilters(op))
  }

  /** The statement text of getAll around a `WHERE` selector. */
  function SelectText(whereSelector: string): string {
    "SELECT id, title, salary, equity, company_handle FROM jobs " + whereSelector + " ORDER BY title"
  }

  /** The statement getAll sends, or the error thrown before it is sent. */
  function GetAllQuery(filters: Option<Obj>): Result<Query> {
    var where := GetAllWhere(filters);
    if where.Err? then Err(where.error)
    else if where.value.NoClause? then Ok(Query(SelectText(""), []))
    else Ok(Query(SelectText(where.value.whereSelector), where.value.values))
  }

  /** A condition of a `WHERE` clause as the store reads it: column,
      operator and the value bound to its placeholder. */
  datatype Condition = Condition(column: string, operator: string, param: Value)

  /** The conditions the store reads from createWhere's text and values:
      condition i is the i-th key's mapper entry with the i-th value. */
  function FilterConditions(filters: Obj, jsToSql: map<string, FilterColumn>): seq<Condition>
    requires AllMapped(filters, jsToSql)
  {
    seq(|filters|, i requires 0 <= i < |filters| =>
      Condition(jsToSql[filters[i].key].sqlString, jsToSql[filters[i].key].operator, filters[i].value))
  }

  predicate KnownOperator(op: string) {
    op == ">" || op == "=" || op == "LIKE"
  }

  /** SQL `LIKE` without an escape character: `%` matches any run of
      characters, `_` any single character. */
  predicate Like(s: string, pattern: string)
    decreases |s| + |pattern|
  {
    if pattern == [] then s == []
    else if pattern[0] == '%' then Like(s, pattern[1..]) || (s != [] && Like(s[1..], pattern))
    else s != [] && (pattern[0] == '_' || pattern[0] == s[0]) && Like(s[1..], pattern[1..])
  }

  /** A pattern without `%` and `_` matches exactly the string it spells. */
  lemma {:induction false} LikeLiteral(s: string, pattern: string)
    requires forall i :: 0 <= i < |pattern| ==> pattern[i] != '%' && pattern[i] != '_'
    ensures Like(s, pattern) <==> s == pattern
    decreases |pattern|
  {
    if pattern != [] && s != [] {
      forall i | 0 <= i < |pattern[1..]| ensures pattern[1..][i] != '%' && pattern[1..][i] != '_' {
        assert pattern[1..][i] == pattern[i + 1];
      }
      LikeLiteral(s[1..], pattern[1..]);
      assert s == [s[0]] + s[1..];
      assert pattern == [pattern[0]] + pattern[1..];
    }
  }

  /** Whether a row satisfies a condition; a `NULL` column, or a parameter
      of another type than the column's, satisfies none. */
  predicate Holds(job: Job, c: Condition) {
    var a := ColumnValue(job, c.column);
    var b := c.param;
    if c.operator == ">" then a.Num? && b.Num? && a.x > b.x
    else if c.operator == "=" then (a.Num? && b.Num? && a.x == b.x) || (a.Str? && b.Str? && a.s == b.s)
    else if c.operator == "LIKE" then a.Str? && b.Str? && Like(a.s, b.s)
    else false
  }

  predicate HoldsAll(job: Job, conditions: seq<Condition>) {
    forall i :: 0 <= i < |conditions| ==> Holds(job, conditions[i])
  }

  /** The records of the rows whose flag is set, in table order. */
  function Kept(jobs: seq<Job>, keep: seq<bool>): seq<Row>
    requires |keep| == |jobs|
  {
    if jobs == [] then []
    else (if keep[0] then [Selected(jobs[0])] else []) + Kept(jobs[1..], keep[1..])
  }

  /** The number of flags that are set. */
  function Count(keep: seq<bool>): nat {
    if keep == [] then 0 else (if keep[0] then 1 else 0) + Count(keep[1..])
  }

  /** There is one record per flagged row. */
  lemma {:induction false} KeptCount(jobs: seq<Job>, keep: seq<bool>)
    requires |keep| == |jobs|
    ensures |Kept(jobs, keep)| == Count(keep)
  {
    if jobs != [] {
      KeptCount(jobs[1..], keep[1..]);
    }
  }

  /** The record of the flagged row `i` sits after the records of the
      flagged rows before it. With `KeptCount`, the records are exactly
      those of the flagged rows, each once, in table order. */
  lemma {:induction false} KeptAt(jobs: seq<Job>, keep: seq<bool>, i: nat)
    requires |keep| == |jobs| && i < |jobs| && keep[i]
    ensures Count(keep[..i]) < |Kept(jobs, keep)|
    ensures Kept(jobs, keep)[Count(keep[..i])] == Selected(jobs[i])
  {
    var head: seq<Row> := if keep[0] then [Selected(jobs[0])] else [];
    assert Kept(jobs, keep) == head + Kept(jobs[1..], keep[1..]);
    if i > 0 {
      KeptAt(jobs[1..], keep[1..], i - 1);
      assert keep[..i][1..] == keep[1..][..i - 1];
      assert Count(keep[..i]) == |head| + Count(keep[1..][..i - 1]);
    }
  }

  /** A record is kept exactly when it is the record of a flagged row. */
  lemma {:induction false} KeptMembers(jobs: seq<Job>, keep: seq<bool>, r: Row)
    requires |keep| == |jobs|
    ensures r in Kept(jobs, keep) <==> exists i :: 0 <= i < |jobs| && keep[i] && r == Selected(jobs[i])
  {
    if jobs != [] {
      KeptMembers(jobs[1..], keep[1..], r);
      if exists i :: 0 <= i < |jobs| && keep[i] && r == Selected(jobs[i]) {
        var i :| 0 <= i < |jobs| && keep[i] && r == Selected(jobs[i]);
        if i > 0 { assert jobs[1..][i - 1] == jobs[i] && keep[1..][i - 1] == keep[i]; }
      }
      if exists i :: 0 <= i < |jobs[1..]| && keep[1..][i] && r == Selected(jobs[1..][i]) {
        var i :| 0 <= i < |jobs[1..]| && keep[1..][i] && r == Selected(jobs[1..][i]);
        assert jobs[i + 1] == jobs[1..][i] && keep[i + 1] == keep[1..][i];
      }
    }
  }

  /** With every flag set, the records of all the rows, in table order. */
  lemma {:induction false} KeptAll(jobs: seq<Job>)
    ensures Kept(jobs, seq(|jobs|, i => true)) == seq(|jobs|, i requires 0 <= i < |jobs| => Selected(jobs[i]))
  {
    if jobs != [] {
      KeptAll(jobs[1..]);
      assert seq(|jobs|, i => true)[1..] == seq(|jobs[1..]|, i => true);
    }
  }

  /** Which rows satisfy every condition. */
  function Mask(jobs: seq<Job>, conditions: seq<Condition>): (keep: seq<bool>)
    ensures |keep| == |jobs|
  {
    seq(|jobs|, i requires 0 <= i < |jobs| => HoldsAll(jobs[i], conditions))
  }

  /** The rows a `SELECT` over the jobs table with these conditions returns:
      the record of each row that satisfies them, in table order. */
  function SelectJobs(jobs: seq<Job>, conditions: seq<Condition>): seq<Row> {
    Kept(jobs, Mask(jobs, conditions))
  }

  /** A record is selected exactly when it is the record of a row that
      satisfies every condition. */
  lemma {:induction false} SelectJobsMembers(jobs: seq<Job>, conditions: seq<Condition>, r: Row)
    ensures r in SelectJobs(jobs, conditions)
        <==> exists i :: 0 <= i < |jobs| && HoldsAll(jobs[i], conditions) && r == Selected(jobs[i])
  {
    KeptMembers(jobs, Mask(jobs, conditions), r);
  }

  /** The store's answer to a `SELECT` with these conditions: a condition on
      a column the table lacks or with an operator SQL does not have makes
      the statement fail. A parameter of the wrong type for its column is not
      rejected here: the condition holds for no row. */
  function RunSelect(jobs: seq<Job>, conditions: seq<Condition>): Result<seq<Row>> {
    if forall i :: 0 <= i < |conditions| ==> IsJobColumn(conditions[i].column) && KnownOperator(conditions[i].operator)
    then Ok(SelectJobs(jobs, conditions))
    else Err(QueryFailed)
  }

  /** What getAll returns for the jobs table and the caller's filters. */
  function GetAllOutcome(jobs: seq<Job>, filters: Option<Obj>): Result<seq<Row>> {
    if filters.None? || |filters.value| == 0 then RunSelect(jobs, [])
    else
      var (filters', op) := EquityRewrite(filters.value);
      var where := CreateWhere(Some(filters'), JobFilters(op));
      if where.Err? then Err(where.error)
      else RunSelect(jobs, FilterConditions(filters', JobFilters(op)))
  }

  /** getAll sends no statement exactly when createWhere throws, and then
      the caller gets that error. */
  lemma {:induction false} GetAllQueryAgrees(jobs: seq<Job>, filters: Option<Obj>)
    ensures GetAllQuery(filters).Err? <==> GetAllOutcome(jobs, filters) == Err(BadRequest(""))
    ensures GetAllQuery(filters).Err? ==> GetAllQuery(filters).error == BadRequest("")
  {
  }

  /** With non-empty filters whose rewrite createWhere accepts, getAll sends
      the rewritten filters' selector and values and selects by their conditions. */
  lemma {:induction false} GetAllFiltered(jobs: seq<Job>, filters: Obj, filters': Obj, op: Option<string>)
    requires |filters| != 0 && EquityRewrite(filters) == (filters', op)
    requires CreateWhere(Some(filters'), JobFilters(op)).Ok?
    ensures var w := CreateWhere(Some(filters'), JobFilters(op)).value;
      && w.Where?
      && GetAllQuery(Some(filters)) == Ok(Query(SelectText(w.whereSelector), w.values))
      && GetAllOutcome(jobs, Some(filters)) == RunSelect(jobs, FilterConditions(filters', JobFilters(op)))
  {
  }

  /** Absent or empty filters: no `WHERE` selector, no parameters, and every
      row of the table comes back. */
  lemma {:induction false} GetAllNoFilters(jobs: seq<Job>, filters: Option<Obj>)
    requires filters.None? || |filters.value| == 0
    ensures GetAllQuery(filters) == Ok(Query(SelectText(""), []))
    ensures GetAllOutcome(jobs, filters) == Ok(seq(|jobs|, i requires 0 <= i < |jobs| => Selected(jobs[i])))
  {
    assert Mask(jobs, []) == seq(|jobs|, i => true);
    KeptAll(jobs);
  }

  /** A filter key other than `minSalary`, `title` and `hasEquity` is a `BadRequest`. */
  lemma {:induction false} GetAllUnknownKey(jobs: seq<Job>, filters: Obj)
    ensures (exists i :: 0 <= i < |filters| && !IsFilterKey(filters[i].key))
        <==> GetAllQuery(Some(filters)) == Err(BadRequest(""))
    ensures (exists i :: 0 <= i < |filters| && !IsFilterKey(filters[i].key))
        <==> GetAllOutcome(jobs, Some(filters)) == Err(BadRequest(""))
  {
    RewriteKeysMapped(filters);
  }

  /** After the rewrite every key is in the job mapper exactly when every
      original key is one of the three filter names. */
  lemma {:induction false} RewriteKeysMapped(filters: Obj)
    ensures var (filters', op) := EquityRewrite(filters);
      AllMapped(filters', JobFilters(op)) <==> forall i :: 0 <= i < |filters| ==> IsFilterKey(filters[i].key)
  {
    var (filters', op) := EquityRewrite(filters);
    assert Keys(filters') == Keys(filters);
    forall i | 0 <= i < |filters| ensures filters'[i].key == filters[i].key {
      assert Keys(filters')[i] == Keys(filters)[i];
    }
  }

  /** Filters whose keys are all among `minSalary`, `title` and `hasEquity`
      pass createWhere; the statement then fails exactly when `hasEquity` is
      present and nullish, and otherwise the select runs. */
  lemma {:induction false} GetAllKnownKeys(jobs: seq<Job>, filters: Obj)
    requires |filters| != 0 && forall i :: 0 <= i < |filters| ==> IsFilterKey(filters[i].key)
    ensures GetAllOutcome(jobs, Some(filters)) == Err(QueryFailed)
        <==> HasKey(filters, "hasEquity") && !NotNullish(Property(filters, "hasEquity"))
    ensures GetAllOutcome(jobs, Some(filters)).Ok?
        <==> !(HasKey(filters, "hasEquity") && !NotNullish(Property(filters, "hasEquity")))
  {
    if HasKey(filters, "hasEquity") && !NotNullish(Property(filters, "hasEquity")) {
      NullishEquityFails(jobs, filters);
    } else {
      KnownKeysRun(jobs, filters);
    }
  }

  /** Known keys with a nullish `hasEquity` present: the `undefined`
      operator makes the statement fail. */
  lemma {:induction false} NullishEquityFails(jobs: seq<Job>, filters: Obj)
    requires |filters| != 0 && forall i :: 0 <= i < |filters| ==> IsFilterKey(filters[i].key)
    requires HasKey(filters, "hasEquity") && !NotNullish(Property(filters, "hasEquity"))
    ensures GetAllOutcome(jobs, Some(filters)) == Err(QueryFailed)
  {
    var jsToSql := JobFilters(None);
    EquityRewriteEffect(filters);
    RewriteKeysMapped(filters);
    GetAllFiltered(jobs, filters, filters, None);
    var conditions := FilterConditions(filters, jsToSql);
    var i :| 0 <= i < |filters| && filters[i].key == "hasEquity";
    assert conditions[i].operator == "undefined";
    assert "undefined"[0] != ">"[0] && "undefined"[0] != "="[0] && "undefined"[0] != "LIKE"[0];
  }

  /** Known keys without a nullish `hasEquity`: every condition names a
      column of the table and an SQL operator, so the select runs. */
  lemma {:induction false} KnownKeysRun(jobs: seq<Job>, filters: Obj)
    requires |filters| != 0 && forall i :: 0 <= i < |filters| ==> IsFilterKey(filters[i].key)
    requires !(HasKey(filters, "hasEquity") && !NotNullish(Property(filters, "hasEquity")))
    ensures GetAllOutcome(jobs, Some(filters)).Ok?
  {
    var (filters', op) := EquityRewrite(filters);
    RewriteKeysMapped(filters);
    RewrittenColumnsKnown(filters);
    GetAllFiltered(jobs, filters, filters', op);
    var conditions := FilterConditions(filters', JobFilters(op));
    forall i | 0 <= i < |conditions|
      ensures IsJobColumn(conditions[i].column) && KnownOperator(conditions[i].operator)
    {
      assert conditions[i].column == JobFilters(op)[filters'[i].key].sqlString;
    }
  }

  /** After the rewrite of known keys without a nullish `hasEquity`, every
      key's mapper entry names a column of the table and an SQL operator. */
  lemma {:induction false} RewrittenColumnsKnown(filters: Obj)
    requires forall i :: 0 <= i < |filters| ==> IsFilterKey(filters[i].key)
    requires !(HasKey(filters, "hasEquity") && !NotNullish(Property(filters, "hasEquity")))
    ensures var (filters', op) := EquityRewrite(filters);
      forall i :: 0 <= i < |filters'| ==>
        && filters'[i].key in JobFilters(op)
        && IsJobColumn(JobFilters(op)[filters'[i].key].sqlString)
        && KnownOperator(JobFilters(op)[filters'[i].key].operator)
  {
    var (filters', op) := EquityRewrite(filters);
    EquityRewriteEffect(filters);
    forall i | 0 <= i < |filters'|
      ensures && filters'[i].key in JobFilters(op)
              && IsJobColumn(JobFilters(op)[filters'[i].key].sqlString)
              && KnownOperator(JobFilters(op)[filters'[i].key].operator)
    {
      assert Keys(filters')[i] == Keys(filters)[i];
      if filters[i].key == "hasEquity" {
        assert HasKey(filters, "hasEquity");
      }
    }
  }

  /** A filter object with one key that the mapper knows after the rewrite
      gives the one-condition clause `WHERE (<column> <operator> $1)` with the
      rewritten value as the only parameter, and the store is asked for the
      rows that satisfy that condition. */
  lemma {:induction false} GetAllOneFilter(jobs: seq<Job>, filters: Obj, rewritten: Entry, op: Option<string>)
    requires |filters| == 1 && EquityRewrite(filters) == ([rewritten], op)
    requires rewritten.key in JobFilters(op)
    ensures var column := JobFilters(op)[rewritten.key];
      && GetAllQuery(Some(filters))
         == Ok(Query(SelectText("WHERE (" + column.sqlString + " " + column.operator + " $1)"), [rewritten.value]))
      && GetAllOutcome(jobs, Some(filters))
         == RunSelect(jobs, [Condition(column.sqlString, column.operator, rewritten.value)])
  {
    var jsToSql := JobFilters(op);
    CreateWhereSingle(rewritten.key, rewritten.value, jsToSql);
    var column := jsToSql[rewritten.key];
    assert FilterConditions([rewritten], jsToSql) == [Condition(column.sqlString, column.operator, rewritten.value)];
  }

  /** The one-condition clauses of the job filters, spelled out. */
  lemma FilterClauseTexts()
    ensures "WHERE (" + "salary" + " " + ">" + " $1)" == "WHERE (salary > $1)"
    ensures "WHERE (" + "title" + " " + "LIKE" + " $1)" == "WHERE (title LIKE $1)"
    ensures "WHERE (" + "equity" + " " + ">" + " $1)" == "WHERE (equity > $1)"
    ensures "WHERE (" + "equity" + " " + "=" + " $1)" == "WHERE (equity = $1)"
    ensures "WHERE (" + "equity" + " " + "undefined" + " $1)" == "WHERE (equity undefined $1)"
  {
  }

  /** Which rows have a salary above the bound. */
  function SalaryAbove(jobs: seq<Job>, minSalary: real): (keep: seq<bool>)
    ensures |keep| == |jobs|
  {
    seq(|jobs|, i requires 0 <= i < |jobs| => jobs[i].salary.Num? && jobs[i].salary.x > minSalary)
  }

  /** Which rows have an equity matching the `hasEquity` flag. */
  function EquityFlagged(jobs: seq<Job>, hasEquity: bool): (keep: seq<bool>)
    ensures |keep| == |jobs|
  {
    seq(|jobs|, i requires 0 <= i < |jobs| => EquityMatches(jobs[i].equity, hasEquity))
  }

  /** Which rows have a title the `LIKE` pattern matches. */
  function TitlesMatching(jobs: seq<Job>, title: string): (keep: seq<bool>)
    ensures |keep| == |jobs|
  {
    seq(|jobs|, i requires 0 <= i < |jobs| => TitleMatches(jobs[i], title))
  }

  /** Which rows have exactly this title. */
  function TitlesEqual(jobs: seq<Job>, title: string): (keep: seq<bool>)
    ensures |keep| == |jobs|
  {
    seq(|jobs|, i requires 0 <= i < |jobs| => jobs[i].title == Str(title))
  }

  /** A one-condition `SELECT` keeps the rows satisfying that condition. */
  lemma {:induction false} MaskOneCondition(jobs: seq<Job>, c: Condition)
    ensures Mask(jobs, [c]) == seq(|jobs|, i requires 0 <= i < |jobs| => Holds(jobs[i], c))
  {
    forall i | 0 <= i < |jobs| ensures HoldsAll(jobs[i], [c]) <==> Holds(jobs[i], c) {
      assert [c][0] == c;
    }
  }

  /** What a `hasEquity` flag asks of a job's equity: above zero for `true`,
      zero for `false` (a `NULL` equity satisfies neither). */
  predicate EquityMatches(equity: Value, hasEquity: bool) {
    equity.Num? && if hasEquity then equity.x > 0.0 else equity.x == 0.0
  }

  /** The rows `salary > $1` selects: those with a salary above the bound. */
  lemma {:induction false} GetAllMinSalaryRows(jobs: seq<Job>, minSalary: real)
    ensures SelectJobs(jobs, [Condition("salary", ">", Num(minSalary))])
         == Kept(jobs, SalaryAbove(jobs, minSalary))
  {
    var c := Condition("salary", ">", Num(minSalary));
    var keep := SalaryAbove(jobs, minSalary);
    MaskOneCondition(jobs, c);
    SalaryCondition(minSalary);
    assert Mask(jobs, [c]) == keep;
  }

  /** The condition `salary > $1` holds of the rows with a salary above the bound. */
  lemma {:induction false} SalaryCondition(minSalary: real)
    ensures forall job :: Holds(job, Condition("salary", ">", Num(minSalary))) <==> job.salary.Num? && job.salary.x > minSalary
  {
  }

  /** A boolean `hasEquity` filter is rewritten to `0`, with `>` for `true` and `=` for `false`. */
  lemma {:induction false} EquityRewriteFlag(hasEquity: bool)
    ensures EquityRewrite([Entry("hasEquity", Bool(hasEquity))])
         == ([Entry("hasEquity", Num(0.0))], Some(if hasEquity then ">" else "="))
  {
    var filters := [Entry("hasEquity", Bool(hasEquity))];
    assert filters[0].key == "hasEquity";
    assert Assign(filters, "hasEquity", Num(0.0)) == [Entry("hasEquity", Num(0.0))];
  }

  /** The rows `equity > $1` or `equity = $1` with `0` select. */
  lemma {:induction false} GetAllHasEquityRows(jobs: seq<Job>, hasEquity: bool, op: string)
    requires op == if hasEquity then ">" else "="
    ensures SelectJobs(jobs, [Condition("equity", op, Num(0.0))])
         == Kept(jobs, EquityFlagged(jobs, hasEquity))
  {
    var c := Condition("equity", op, Num(0.0));
    var keep := EquityFlagged(jobs, hasEquity);
    MaskOneCondition(jobs, c);
    EquityCondition(hasEquity, op);
    assert Mask(jobs, [c]) == keep;
  }

  /** The condition `equity > $1` or `equity = $1` with `0` holds of the
      rows whose equity matches the flag. */
  lemma {:induction false} EquityCondition(hasEquity: bool, op: string)
    requires op == if hasEquity then ">" else "="
    ensures forall job :: Holds(job, Condition("equity", op, Num(0.0))) <==> EquityMatches(job.equity, hasEquity)
  {
  }

  /** A job's title is a string that the `LIKE` pattern matches. */
  predicate TitleMatches(job: Job, pattern: string) {
    job.title.Str? && Like(job.title.s, pattern)
  }

  /** The condition `title LIKE $1` holds of the rows whose title matches the pattern. */
  lemma {:induction false} LikeCondition(title: string)
    ensures forall job ::
      Holds(job, Condition("title", "LIKE", Str(title))) <==> TitleMatches(job, title)
  {
    assert "LIKE" != ">" && "LIKE" != "=" by {
      assert "LIKE"[0] != ">"[0] && "LIKE"[0] != "="[0];
    }
  }

  /** The rows `title LIKE $1` selects: those whose title matches the
      pattern, which for a pattern without wildcards is equality. */
  lemma {:induction false} GetAllTitleRows(jobs: seq<Job>, title: string)
    ensures SelectJobs(jobs, [Condition("title", "LIKE", Str(title))])
         == Kept(jobs, TitlesMatching(jobs, title))
    ensures (forall i :: 0 <= i < |title| ==> title[i] != '%' && title[i] != '_') ==>
      SelectJobs(jobs, [Condition("title", "LIKE", Str(title))])
      == Kept(jobs, TitlesEqual(jobs, title))
  {
    var c := Condition("title", "LIKE", Str(title));
    var keep := TitlesMatching(jobs, title);
    LikeCondition(title);
    MaskOneCondition(jobs, c);
    assert Mask(jobs, [c]) == keep;
    if forall i :: 0 <= i < |title| ==> title[i] != '%' && title[i] != '_' {
      LiteralTitles(jobs, title);
    }
  }

  /** For a pattern without wildcards, the titles it matches are the
      titles equal to it. */
  lemma {:induction false} LiteralTitles(jobs: seq<Job>, title: string)
    requires forall i :: 0 <= i < |title| ==> title[i] != '%' && title[i] != '_'
    ensures TitlesMatching(jobs, title)
         == TitlesEqual(jobs, title)
  {
    forall i | 0 <= i < |jobs| ensures TitleMatches(jobs[i], title) <==> jobs[i].title == Str(title) {
      if jobs[i].title.Str? {
        LikeLiteral(jobs[i].title.s, title);
      }
    }
  }

  /** A `title` filter gives `WHERE (title LIKE $1)` with the title as the
      only parameter, and selects the rows whose title matches it; a title
      without `%` or `_` selects the rows with exactly that title. */
  lemma {:induction false} GetAllTitle(jobs: seq<Job>, title: string)
    ensures GetAllQuery(Some([Entry("title", Str(title))]))
         == Ok(Query(SelectText("WHERE (title LIKE $1)"), [Str(title)]))
    ensures GetAllOutcome(jobs, Some([Entry("title", Str(title))]))
         == Ok(Kept(jobs, TitlesMatching(jobs, title)))
    ensures (forall i :: 0 <= i < |title| ==> title[i] != '%' && title[i] != '_') ==>
      GetAllOutcome(jobs, Some([Entry("title", Str(title))]))
      == Ok(Kept(jobs, TitlesEqual(jobs, title)))
  {
    var filters := [Entry("title", Str(title))];
    assert EquityRewrite(filters) == (filters, None);
    assert JobFilters(None)["title"] == FilterColumn("title", "LIKE");
    GetAllOneFilter(jobs, filters, filters[0], None);
    FilterClauseTexts();
    GetAllTitleRows(jobs, title);
  }

  /** A `minSalary` filter gives `WHERE (salary > $1)` with the salary as
      the only parameter, and selects the rows whose salary exceeds it. */
  lemma {:induction false} GetAllMinSalary(jobs: seq<Job>, minSalary: real)
    ensures GetAllQuery(Some([Entry("minSalary", Num(minSalary))]))
         == Ok(Query(SelectText("WHERE (salary > $1)"), [Num(minSalary)]))
    ensures GetAllOutcome(jobs, Some([Entry("minSalary", Num(minSalary))]))
         == Ok(Kept(jobs, SalaryAbove(jobs, minSalary)))
  {
    var filters := [Entry("minSalary", Num(minSalary))];
    assert EquityRewrite(filters) == (filters, None);
    assert JobFilters(None)["minSalary"] == FilterColumn("salary", ">");
    GetAllOneFilter(jobs, filters, filters[0], None);
    FilterClauseTexts();
    GetAllMinSalaryRows(jobs, minSalary);
  }

  /** `hasEquity: true` becomes `WHERE (equity > $1)` with `0`, selecting the
      rows whose equity is above zero; `hasEquity: false` becomes
      `WHERE (equity = $1)` with `0`, selecting those whose equity is zero. */
  lemma {:induction false} GetAllHasEquity(jobs: seq<Job>, hasEquity: bool)
    ensures GetAllQuery(Some([Entry("hasEquity", Bool(hasEquity))]))
         == Ok(Query(SelectText(if hasEquity then "WHERE (equity > $1)" else "WHERE (equity = $1)"), [Num(0.0)]))
    ensures GetAllOutcome(jobs, Some([Entry("hasEquity", Bool(hasEquity))]))
         == Ok(Kept(jobs, EquityFlagged(jobs, hasEquity)))
  {
    var filters := [Entry("hasEquity", Bool(hasEquity))];
    var op := if hasEquity then ">" else "=";
    var rewritten := Entry("hasEquity", Num(0.0));
    EquityRewriteFlag(hasEquity);
    assert JobFilters(Some(op))["hasEquity"] == FilterColumn("equity", op);
    GetAllOneFilter(jobs, filters, rewritten, Some(op));
    FilterClauseTexts();
    GetAllHasEquityRows(jobs, hasEquity, op);
  }

  /** As written, a `hasEquity` filter that is `null` (or `undefined`) skips
      the rewrite, so the operator stays unset and the clause reads
      `WHERE (equity undefined $1)`, which the store rejects. */
  lemma {:induction false} NullEquityUndefinedOperator(jobs: seq<Job>, hasEquity: Value)
    requires !NotNullish(hasEquity)
    ensures GetAllQuery(Some([Entry("hasEquity", hasEquity)]))
         == Ok(Query(SelectText("WHERE (equity undefined $1)"), [hasEquity]))
    ensures GetAllOutcome(jobs, Some([Entry("hasEquity", hasEquity)])) == Err(QueryFailed)
  {
    var filters := [Entry("hasEquity", hasEquity)];
    EquityRewriteNullish(hasEquity);
    GetAllOneFilter(jobs, filters, filters[0], None);
    FilterClauseTexts();
    UnknownOperatorFails(jobs, Condition("equity", "undefined", hasEquity));
  }

  /** A nullish `hasEquity` filter is left as it is and the operator stays unset. */
  lemma {:induction false} EquityRewriteNullish(hasEquity: Value)
    requires !NotNullish(hasEquity)
    ensures EquityRewrite([Entry("hasEquity", hasEquity)]) == ([Entry("hasEquity", hasEquity)], None)
    ensures JobFilters(None)["hasEquity"] == FilterColumn("equity", "undefined")
  {
    assert Property([Entry("hasEquity", hasEquity)], "hasEquity") == hasEquity;
  }

  /** The store rejects a one-condition `SELECT` whose operator SQL does not have. */
  lemma {:induction false} UnknownOperatorFails(jobs: seq<Job>, c: Condition)
    requires !KnownOperator(c.operator)
    ensures RunSelect(jobs, [c]) == Err(QueryFailed)
  {
    assert [c][0] == c;
  }

  /** Corrected preprocessing: a nullish `hasEquity` filter is dropped
      instead of leaving the operator unset. */
  function EquityRewriteFixed(filters: Obj): (Obj, Option<string>) {
    var hasEquity := Property(filters, "hasEquity");
    if NotNullish(hasEquity) then EquityRewrite(filters)
    else (Remove(filters, "hasEquity"), None)
  }

  /** getAll with the corrected preprocessing. */
  function GetAllOutcomeFixed(jobs: seq<Job>, filters: Option<Obj>): Result<seq<Row>> {
    if filters.None? || |filters.value| == 0 then RunSelect(jobs, [])
    else
      var (filters', op) := EquityRewriteFixed(filters.value);
      var where := CreateWhere(Some(filters'), JobFilters(op));
      if where.Err? then Err(where.error)
      else if where.value.NoClause? then RunSelect(jobs, [])
      else RunSelect(jobs, FilterConditions(filters', JobFilters(op)))
  }

  /** With the correction, getAll never sends a condition with a column or
      operator SQL lacks, and it agrees with the code as written whenever `hasEquity` is absent
      or not nullish. */
  lemma {:induction false} GetAllFixedNeverFails(jobs: seq<Job>, filters: Option<Obj>)
    ensures GetAllOutcomeFixed(jobs, filters) != Err(QueryFailed)
    ensures filters.Some? && NotNullish(Property(filters.value, "hasEquity")) ==>
      GetAllOutcomeFixed(jobs, filters) == GetAllOutcome(jobs, filters)
    ensures filters.Some? && !HasKey(filters.value, "hasEquity") ==>
      GetAllOutcomeFixed(jobs, filters) == GetAllOutcome(jobs, filters)
  {
    if filters.Some? && |filters.value| != 0 {
      var f := filters.value;
      var (f', op) := EquityRewriteFixed(f);
      var jsToSql := JobFilters(op);
      var where := CreateWhere(Some(f'), jsToSql);
      if where.Ok? && where.value.Where? {
        var conditions := FilterConditions(f', jsToSql);
        if !NotNullish(Property(f, "hasEquity")) {
          RemoveDropsKey(f, "hasEquity");
        }
        forall i | 0 <= i < |conditions|
          ensures IsJobColumn(conditions[i].column) && KnownOperator(conditions[i].operator)
        {
          assert f'[i].key in jsToSql;
          if f'[i].key == "hasEquity" {
            assert HasKey(f', "hasEquity");
            assert op.Some? && (op.value == ">" || op.value == "=");
          }
        }
      }
      if !HasKey(f, "hasEquity") {
        RemoveAbsentKey(f, "hasEquity");
      }
    }
  }

  // ---------------------------------------------------------------------
  // The caller's filters object and the store
  // ---------------------------------------------------------------------

  /** A plain object owned by the caller; getAll rewrites it in place. */
  class JsObject {
    var entries: Obj

    constructor (entries: Obj)
      ensures this.entries == entries
    {
      this.entries := entries;
    }
  }

  /** The tables behind the `Job` model. `nextId` is the next value of the
      id sequence. */
  class JobStore {
    var jobs: seq<Job>
    var companies: seq<Row>
    var nextId: int

    ghost predicate Valid()
      reads this
    {
      IdsIncreasing(jobs) && forall i :: 0 <= i < |jobs| ==> jobs[i].id < nextId
    }

    constructor (companies: seq<Row>)
      ensures Valid() && jobs == [] && this.companies == companies && nextId == 1
    {
      jobs := [];
      this.companies := companies;
      nextId := 1;
    }

    /** `Job.create`: refused with a `BadRequest` naming the handle, and
        nothing inserted, unless a company row has that handle; otherwise a
        row with the next id and the given fields is appended and its record
        returned. */
    method Create(title: Value, salary: Value, equity: Value, companyHandle: string) returns (r: Result<Row>)
      requires Valid()
      modifies this`jobs, this`nextId
      ensures Valid()
      ensures !CheckIfExists(companies, "handle", Str(companyHandle)) ==>
        && r == Err(BadRequest("No company with handle " + companyHandle))
        && jobs == old(jobs) && nextId == old(nextId)
      ensures CheckIfExists(companies, "handle", Str(companyHandle)) ==>
        var job := Job(old(nextId), title, salary, equity, Str(companyHandle));
        && jobs == old(jobs) + [job] && nextId == old(nextId) + 1
        && r == Ok(Returned(job))
    {
      if !CheckIfExists(companies, "handle", Str(companyHandle)) {
        return Err(BadRequest("No company with handle " + companyHandle));
      }
      var job := Job(nextId, title, salary, equity, Str(companyHandle));
      jobs := jobs + [job];
      nextId := nextId + 1;
      r := Ok(Returned(job));
    }

    /** `Job.get`: a `NotFound` when no row has the id, otherwise the record
        of the first row that has it. */
    method Get(id: int) returns (r: Result<Row>)
      ensures r.Err? <==> forall i :: 0 <= i < |jobs| ==> jobs[i].id != id
      ensures r.Err? ==> r.error == NotFound("")
      ensures r.Ok? ==>
        exists k :: 0 <= k < |jobs| && jobs[k].id == id && r.value == Selected(jobs[k])
          && forall j :: 0 <= j < k ==> jobs[j].id != id
    {
      var rows := WithId(jobs, id);
      WithIdFirst(jobs, id);
      if |rows| == 0 {
        return Err(NotFound(""));
      }
      r := Ok(Selected(rows[0]));
    }

    /** `Job.getAll`: rewrites the caller's `hasEquity` filter in place,
        builds the `WHERE` selector and its values, and returns the selected
        rows. `sent` is the statement handed to the store (`None` when
        createWhere throws first). */
    method GetAll(filters: JsObject?) returns (r: Result<seq<Row>>, sent: Option<Query>)
      modifies filters
      ensures filters != null ==> filters.entries == EquityRewrite(old(filters.entries)).0
      ensures var given := if filters == null then None else Some(old(filters.entries));
        && r == GetAllOutcome(jobs, given)
        && (if GetAllQuery(given).Ok? then sent == Some(GetAllQuery(given).value) else sent.None?)
    {
      ghost var given := if filters == null then None else Some(filters.entries);
      var whereSelector := "";
      var values: seq<Value> := [];
      var conditions: seq<Condition> := [];
      if filters != null {
        if |filters.entries| != 0 {
          var op: Option<string> := None;
          var hasEquity := Property(filters.entries, "hasEquity");
          if NotNullish(hasEquity) {
            if Truthy(hasEquity) {
              filters.entries := Assign(filters.entries, "hasEquity", Num(0.0));
              op := Some(">");
            } else {
              filters.entries := Assign(filters.entries, "hasEquity", Num(0.0));
              op := Some("=");
            }
          }
          assert (filters.entries, op) == EquityRewrite(given.value);
          var jsToSql := JobFilters(op);
          var whereQuery := CreateWhere(Some(filters.entries), jsToSql);
          if whereQuery.Err? {
            return Err(whereQuery.error), None;
          }
          whereSelector := whereQuery.value.whereSelector;
          values := whereQuery.value.values;
          conditions := FilterConditions(filters.entries, jsToSql);
          GetAllFiltered(jobs, given.value, filters.entries, op);
        }
      }
      sent := Some(Query(SelectText(whereSelector), values));
      r := RunSelect(jobs, conditions);
    }

    /** `Job.update`: the statement of UpdateQuery run against the table;
        the table and the result are those of UpdateOutcome, and the id
        order invariant is kept. */
    method Update(updateData: Obj, id: int) returns (r: Result<Option<Row>>)
      requires Valid()
      modifies this`jobs
      ensures Valid()
      ensures var outcome := UpdateOutcome(old(jobs), updateData, id);
        && (outcome.Err? ==> r == Err(outcome.error) && jobs == old(jobs))
        && (outcome.Ok? ==> r == Ok(outcome.value.1) && jobs == outcome.value.0)
    {
      var query := UpdateQuery(updateData, id);
      if query.Err? {
        return Err(query.error);
      }
      if !AllSettable(updateData) || !DistinctKeys(updateData) {
        return Err(QueryFailed);
      }
      var matched := WithId(jobs, id);
      jobs := UpdatedJobs(jobs, updateData, id);
      if |matched| == 0 {
        r := Ok(None);
      } else {
        r := Ok(Some(Returned(ApplySet(matched[0], updateData))));
      }
    }

    /** `Job.delete`: when a row has the id it is removed, the others keep
        their order, and its record is returned; otherwise nothing changes
        and the result is absent. */
    method Delete(id: int) returns (r: Option<Row>)
      requires Valid()
      modifies this`jobs
      ensures Valid()
      ensures (forall i :: 0 <= i < |old(jobs)| ==> old(jobs)[i].id != id) ==> r.None? && jobs == old(jobs)
      ensures forall k :: 0 <= k < |old(jobs)| && old(jobs)[k].id == id ==>
        r == Some(Returned(old(jobs)[k])) && jobs == old(jobs)[..k] + old(jobs)[k + 1..]
    {
      var deleted := WithId(jobs, id);
      DeleteEffect(jobs, id, nextId);
      jobs := WithoutId(jobs, id);
      r := if |deleted| == 0 then None else Some(Returned(deleted[0]));
    }
  }
}
