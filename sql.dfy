/** The SQL fragment builders of helpers/sql.js: the `SET` list of a partial
    update, the `WHERE` selector of a filtered query, and the existence check
    that guards an insert. All three are pure over their inputs; the table
    the existence check reads is passed in as its rows. */
module SqlHelpers {
  import opened JsValues
  import opened Text

  // ---------------------------------------------------------------------
  // sqlForPartialUpdate
  // ---------------------------------------------------------------------

  /** What `sqlForPartialUpdate` returns: `{setCols, values}`. */
  datatype SetClause = SetClause(setCols: string, values: seq<Value>)

  /** `jsToSql[colName] || colName`: the mapped column name when the mapper
      has a non-empty one, otherwise the key itself. */
  function UpdateColumn(jsToSql: map<string, string>, key: string): string {
    if key in jsToSql && jsToSql[key] != "" then jsToSql[key] else key
  }

  /** One `"<column>"=$<position>` item of the `SET` list. */
  function SetSegment(column: string, position: nat): string {
    "\"" + column + "\"=$" + NatToString(position)
  }

  /** `keys.map((colName, idx) => ...)`: the item for each key, numbered from 1. */
  function SetSegments(keys: seq<string>, jsToSql: map<string, string>): seq<string> {
    seq(|keys|, i requires 0 <= i < |keys| => SetSegment(UpdateColumn(jsToSql, keys[i]), i + 1))
  }

  /** Builds the `SET` list and the parameter values of an `UPDATE` from the
      fields to change. An object without keys is refused with
      `BadRequest("No data")`; otherwise there is one value per key. */
  function SqlForPartialUpdate(dataToUpdate: Obj, jsToSql: map<string, string>): (r: Result<SetClause>)
    ensures r.Err? <==> |dataToUpdate| == 0
    ensures r.Err? ==> r.error == BadRequest("No data")
    ensures r.Ok? ==> |r.value.values| == |dataToUpdate|
  {
    var keys := Keys(dataToUpdate);
    if |keys| == 0 then Err(BadRequest("No data"))
    else Ok(SetClause(Join(SetSegments(keys, jsToSql), ", "), Values(dataToUpdate)))
  }

  /** For n >= 1 keys, `setCols` is laid out as the n items separated by
      n - 1 `", "` separators, item i being `"<column>"=$<i+1>` for the i-th
      key, and `values` lists the input's values in key order. */
  lemma {:induction false} PartialUpdateLayout(dataToUpdate: Obj, jsToSql: map<string, string>)
    requires |dataToUpdate| >= 1
    ensures var r := SqlForPartialUpdate(dataToUpdate, jsToSql);
      && r.Ok?
      && |r.value.values| == |dataToUpdate|
      && (forall i :: 0 <= i < |dataToUpdate| ==> r.value.values[i] == dataToUpdate[i].value)
      && var pieces := Interleave(SetSegments(Keys(dataToUpdate), jsToSql), ", ");
      && r.value.setCols == Concat(pieces)
      && |pieces| == 2 * |dataToUpdate| - 1
      && (forall i :: 0 <= i < |dataToUpdate| ==>
            pieces[2 * i] == "\"" + UpdateColumn(jsToSql, dataToUpdate[i].key) + "\"=$" + NatToString(i + 1))
      && (forall i :: 0 <= i < |dataToUpdate| - 1 ==> pieces[2 * i + 1] == ", ")
  {
    var segments := SetSegments(Keys(dataToUpdate), jsToSql);
    JoinIsInterleaved(segments, ", ");
    InterleavePositions(segments, ", ");
    SegmentsSpelled(dataToUpdate, jsToSql);
  }

  /** Item i of the `SET` list spelled out. */
  lemma {:induction false} SegmentsSpelled(dataToUpdate: Obj, jsToSql: map<string, string>)
    ensures forall i :: 0 <= i < |dataToUpdate| ==>
      SetSegments(Keys(dataToUpdate), jsToSql)[i]
        == "\"" + UpdateColumn(jsToSql, dataToUpdate[i].key) + "\"=$" + NatToString(i + 1)
  {
  }

  /** The worked example of the partial-update builder with an empty mapper. */
  lemma PartialUpdateExample()
    ensures SqlForPartialUpdate([Entry("title", Str("new title")), Entry("salary", Num(1000.0))], map[])
         == Ok(SetClause("\"title\"=$1, \"salary\"=$2", [Str("new title"), Num(1000.0)]))
  {
    var data := [Entry("title", Str("new title")), Entry("salary", Num(1000.0))];
    assert Keys(data) == ["title", "salary"];
    assert Values(data) == [Str("new title"), Num(1000.0)];
    ExampleSegments();
    JoinTwo("\"title\"=$1", "\"salary\"=$2", ", ");
    ExampleSetText();
  }

  /** The two items of the worked example. */
  lemma ExampleSegments()
    ensures SetSegments(["title", "salary"], map[]) == ["\"title\"=$1", "\"salary\"=$2"]
  {
    assert DigitChar(1) == '1' && DigitChar(2) == '2';
    assert SetSegment("title", 1) == "\"title\"=$1";
    assert SetSegment("salary", 2) == "\"salary\"=$2";
  }

  /** The worked example's items joined, spelled out. */
  lemma ExampleSetText()
    ensures "\"title\"=$1" + ", " + "\"salary\"=$2" == "\"title\"=$1, \"salary\"=$2"
  {
  }

  // ---------------------------------------------------------------------
  // createWhere
  // ---------------------------------------------------------------------

  /** A filter mapper entry: `{sqlString, operator}`. */
  datatype FilterColumn = FilterColumn(sqlString: string, operator: string)

  /** What `createWhere` returns: the empty string `''` when there is nothing
      to filter on, else `{whereSelector, values}`. */
  datatype WhereClause = NoClause | Where(whereSelector: string, values: seq<Value>)

  /** `<sqlString> <operator> $<position>`. */
  function ConditionText(column: FilterColumn, position: nat): string {
    column.sqlString + " " + column.operator + " $" + NatToString(position)
  }

  /** Every key has a mapper entry (mapper entries are objects, so always truthy). */
  predicate AllMapped(whereData: Obj, jsToSql: map<string, FilterColumn>) {
    forall i :: 0 <= i < |whereData| ==> whereData[i].key in jsToSql
  }

  /** `keys.map((colName, idx) => ...)`: the condition for each key, numbered from 1. */
  function Conditions(whereData: Obj, jsToSql: map<string, FilterColumn>): seq<string>
    requires AllMapped(whereData, jsToSql)
  {
    seq(|whereData|, i requires 0 <= i < |whereData| => ConditionText(jsToSql[whereData[i].key], i + 1))
  }

  /** Builds the `WHERE` selector and parameter values of a filtered query.
      Absent or key-less filters give the empty result; a key the mapper does
      not know is refused with a `BadRequest` that carries no message of its
      own. As the source writes it, every condition but the last carries a
      trailing `" AND "` and the pieces are joined with `""`. */
  function CreateWhere(whereData: Option<Obj>, jsToSql: map<string, FilterColumn>): (r: Result<WhereClause>)
    ensures r == Ok(NoClause) <==> whereData.None? || |whereData.value| == 0
    ensures r.Err? <==> whereData.Some? && !AllMapped(whereData.value, jsToSql)
    ensures r.Err? ==> r.error == BadRequest("")
    ensures r.Ok? && r.value.Where? ==> |r.value.values| == |whereData.value|
  {
    if whereData.None? then Ok(NoClause)
    else
      if |whereData.value| == 0 then Ok(NoClause)
      else if !AllMapped(whereData.value, jsToSql) then Err(BadRequest(""))
      else
        var cols := Suffixed(Conditions(whereData.value, jsToSql), " AND ");
        Ok(Where("WHERE (" + Concat(cols) + ")", Values(whereData.value)))
  }

  /** For n >= 1 filter keys that are all mapped, the selector is
      `WHERE (` + conditions + `)` where the conditions are laid out as the n
      conditions separated by n - 1 `" AND "` joiners (none trailing),
      condition i being `<sqlString> <operator> $<i+1>` for the i-th key,
      and `values` lists the filter values in key order. */
  lemma {:induction false} CreateWhereLayout(whereData: Obj, jsToSql: map<string, FilterColumn>)
    requires |whereData| >= 1 && AllMapped(whereData, jsToSql)
    ensures var r := CreateWhere(Some(whereData), jsToSql);
      && r.Ok? && r.value.Where?
      && |r.value.values| == |whereData|
      && (forall i :: 0 <= i < |whereData| ==> r.value.values[i] == whereData[i].value)
      && var pieces := Interleave(Conditions(whereData, jsToSql), " AND ");
      && r.value.whereSelector == "WHERE (" + Concat(pieces) + ")"
      && |pieces| == 2 * |whereData| - 1
      && (forall i :: 0 <= i < |whereData| ==>
            var column := jsToSql[whereData[i].key];
            pieces[2 * i] == column.sqlString + " " + column.operator + " $" + NatToString(i + 1))
      && (forall i :: 0 <= i < |whereData| - 1 ==> pieces[2 * i + 1] == " AND ")
  {
    var conditions := Conditions(whereData, jsToSql);
    SuffixedIsJoin(conditions, " AND ");
    JoinIsInterleaved(conditions, " AND ");
    InterleavePositions(conditions, " AND ");
    ConditionsSpelled(whereData, jsToSql);
  }

  /** Condition i spelled out. */
  lemma {:induction false} ConditionsSpelled(whereData: Obj, jsToSql: map<string, FilterColumn>)
    requires AllMapped(whereData, jsToSql)
    ensures forall i :: 0 <= i < |whereData| ==>
      var column := jsToSql[whereData[i].key];
      Conditions(whereData, jsToSql)[i] == column.sqlString + " " + column.operator + " $" + NatToString(i + 1)
  {
  }

  /** A single filter key gives `WHERE (<sqlString> <operator> $1)` with its
      value as the only parameter. */
  lemma {:induction false} CreateWhereSingle(key: string, v: Value, jsToSql: map<string, FilterColumn>)
    requires key in jsToSql
    ensures CreateWhere(Some([Entry(key, v)]), jsToSql)
         == Ok(Where("WHERE (" + jsToSql[key].sqlString + " " + jsToSql[key].operator + " $1)", [v]))
  {
    var data := [Entry(key, v)];
    var text := ConditionText(jsToSql[key], 1);
    assert DigitChar(1) == '1';
    assert text == jsToSql[key].sqlString + " " + jsToSql[key].operator + " $1";
    assert AllMapped(data, jsToSql);
    assert Conditions(data, jsToSql) == [text];
    assert Suffixed([text], " AND ") == [text];
    assert Concat([text]) == text + Concat([]);
    assert Concat(Suffixed(Conditions(data, jsToSql), " AND ")) == text;
    assert " $1" + ")" == " $1)";
    assert "WHERE (" + text + ")"
        == "WHERE (" + jsToSql[key].sqlString + " " + jsToSql[key].operator + " $1)";
    assert Values(data) == [v];
  }

  /** The worked example of the filter builder: one `minSalary` filter. */
  lemma CreateWhereExample()
    ensures CreateWhere(Some([Entry("minSalary", Num(1001.0))]),
                        map["minSalary" := FilterColumn("salary", ">")])
         == Ok(Where("WHERE (salary > $1)", [Num(1001.0)]))
  {
    var jsToSql := map["minSalary" := FilterColumn("salary", ">")];
    CreateWhereSingle("minSalary", Num(1001.0), jsToSql);
    assert jsToSql["minSalary"].sqlString == "salary" && jsToSql["minSalary"].operator == ">";
    assert "WHERE (" + "salary" + " " + ">" + " $1)" == "WHERE (salary > $1)";
  }

  // ---------------------------------------------------------------------
  // checkIfExists
  // ---------------------------------------------------------------------

  /** A table row: column name to value. */
  type Row = map<string, Value>

  predicate RowMatches(row: Row, selector: string, value: Value) {
    selector in row && row[selector] == value
  }

  /** The rows `SELECT * FROM <table> WHERE <selector> = $1` returns, in table order. */
  function SelectEqual(rows: seq<Row>, selector: string, value: Value): seq<Row> {
    if rows == [] then []
    else (if RowMatches(rows[0], selector, value) then [rows[0]] else [])
         + SelectEqual(rows[1..], selector, value)
  }

  /** The query returns no row exactly when no row of the table matches. */
  lemma {:induction false} SelectEqualEmpty(rows: seq<Row>, selector: string, value: Value)
    ensures |SelectEqual(rows, selector, value)| == 0
        <==> forall i :: 0 <= i < |rows| ==> !RowMatches(rows[i], selector, value)
  {
    if rows != [] {
      SelectEqualEmpty(rows[1..], selector, value);
      forall i | 0 <= i < |rows| - 1
        ensures rows[1..][i] == rows[i + 1]
      {
      }
    }
  }

  /** Whether some row of the table has `value` in column `selector`; a falsy
      `value` answers `false` whatever the table holds, without a query. */
  function CheckIfExists(rows: seq<Row>, selector: string, value: Value): (r: bool)
    ensures !Truthy(value) ==> !r
    ensures Truthy(value) ==>
      (r <==> exists i :: 0 <= i < |rows| && RowMatches(rows[i], selector, value))
  {
    if !Truthy(value) then false
    else
      SelectEqualEmpty(rows, selector, value);
      |SelectEqual(rows, selector, value)| != 0
  }
}
