/** `show_object`: the field table of one object and the table of its
    validation rules, from the describe response and the tooling query
    response. */
module ObjectView {
  import opened Json
  import opened Flatten
  import opened HtmlTable

  /** The columns of the field table, in display order. */
  const FieldParams := ["name", "label", "type", "length", "nillable", "referenceTo", "picklistValues"]

  /** The columns of the validation-rule table, in display order. */
  const RuleParams := ["Id", "Active", "Description", "ErrorDisplayField", "ErrorMessage"]

  datatype Option<+T> = None | Some(value: T)

  /** What `show_object` returns, without the pandas frame. */
  datatype View = View(structure: string, rules: Option<string>, additionalColumns: seq<string>)

  /** `len(d[p])`. */
  function ColumnLength(d: Columns, p: string): (r: Result<int>)
    ensures r.Ok? <==> p in d.lists
    ensures r.Ok? ==> r.value == |d.lists[p]|
    ensures r.Err? ==> r.error == KeyError(Str(p))
  {
    if p in d.lists then Ok(|d.lists[p]|) else Err(KeyError(Str(p)))
  }

  /** `None if len(d) == 0 else prepare_html_table(d, len(d['Id']), params)`. */
  function RulesTable(d: Columns, ruleParams: seq<string>): Result<Option<string>>
  {
    if |d.keys| == 0 then Ok(None)
    else
      var n :- ColumnLength(d, "Id");
      var table :- Render(d, n, ruleParams);
      Ok(Some(table))
  }

  /** The outcome of `show_object` for the two responses it receives, with
      the two column lists as parameters. */
  function ViewWith(describe: Value, rulesResponse: Value, fieldParams: seq<string>, ruleParams: seq<string>): Result<View>
  {
    var fields :- Parse(describe, fieldParams, "fields");
    var n :- ColumnLength(fields.0, "name");
    var structure :- Render(fields.0, n, fieldParams);
    var rules :- Parse(rulesResponse, ruleParams, "records");
    var rulesTable :- RulesTable(rules.0, ruleParams);
    Ok(View(structure, rulesTable, fields.1))
  }

  /** The outcome of `show_object`. */
  function ViewOf(describe: Value, rulesResponse: Value): Result<View>
  {
    ViewWith(describe, rulesResponse, FieldParams, RuleParams)
  }

  /** `show_object` as the source runs it, once both responses are decoded. */
  method ShowObject(describe: Value, rulesResponse: Value) returns (r: Result<View>)
    ensures r == ViewOf(describe, rulesResponse)
  {
    var fields :- ParseResponse(describe, FieldParams, "fields");
    var d := fields.0;
    var n :- ColumnLength(d, "name");
    var structure :- PrepareHtmlTable(d, n, FieldParams);
    var rules :- ParseResponse(rulesResponse, RuleParams, "records");
    var rulesTable: Option<string>;
    if |rules.0.keys| == 0 {
      rulesTable := None;
    } else {
      var count :- ColumnLength(rules.0, "Id");
      var table :- PrepareHtmlTable(rules.0, count, RuleParams);
      rulesTable := Some(table);
    }
    return Ok(View(structure, rulesTable, fields.1));
  }

  // ---------------------------------------------------------------------
  // Properties

  lemma FieldParamsDistinct()
    ensures Distinct(FieldParams)
  {
  }

  lemma RuleParamsDistinct()
    ensures Distinct(RuleParams)
  {
  }

  /** Flattening records that all have the requested (distinct) columns,
      at least one of them, gives a dict with keys whose column `col` has
      one entry per record and from which the whole table can be built. */
  lemma TableOf(response: Value, ps: seq<string>, key: string, records: Value, rs: seq<Value>,
                additional: seq<string>, col: string)
    requires Get(response, key) == Ok(records) && Iterate(records) == Ok(rs)
    requires (if key == "fields" then FirstKeys(records) else Ok([])) == Ok(additional)
    requires |rs| > 0 && Distinct(ps) && AllCellsOk(rs, ps) && col in ps
    ensures AddRecords(NoColumns, rs, ps).Ok?
    ensures var d := AddRecords(NoColumns, rs, ps).value;
      && Parse(response, ps, key) == Ok((d, additional))
      && |d.keys| > 0
      && ColumnLength(d, col) == Ok(|rs|)
      && Render(d, |rs|, ps).Ok?
  {
    Flattened(rs, ps);
    var d := AddRecords(NoColumns, rs, ps).value;
    assert ColumnsCover(d, |rs|, ps);
    RenderOk(d, |rs|, ps);
  }

  /** Validation rules are reported as `None` exactly when the query found no
      rule, and otherwise as the table of all the rules, one row each. */
  lemma RulesNoneIffNoRecords(rulesResponse: Value, records: Value, rs: seq<Value>, ruleParams: seq<string>)
    requires Get(rulesResponse, "records") == Ok(records) && Iterate(records) == Ok(rs)
    requires Distinct(ruleParams) && "Id" in ruleParams && AllCellsOk(rs, ruleParams)
    ensures Parse(rulesResponse, ruleParams, "records").Ok?
    ensures var d := Parse(rulesResponse, ruleParams, "records").value.0;
      && RulesTable(d, ruleParams).Ok?
      && (RulesTable(d, ruleParams).value.None? <==> |rs| == 0)
      && (|rs| > 0 ==> Render(d, |rs|, ruleParams).Ok?)
      && (|rs| > 0 ==> RulesTable(d, ruleParams).value == Some(Render(d, |rs|, ruleParams).value))
  {
    if |rs| == 0 {
      assert AddRecords(NoColumns, rs, ruleParams) == Ok(NoColumns);
    } else {
      TableOf(rulesResponse, ruleParams, "records", records, rs, [], "Id");
    }
  }

  /** An empty rule list gives `None`, never a table with no rows. */
  lemma NoRulesIsNone(rulesResponse: Value, ruleParams: seq<string>)
    requires Get(rulesResponse, "records") == Ok(List([]))
    ensures Parse(rulesResponse, ruleParams, "records").Ok?
    ensures RulesTable(Parse(rulesResponse, ruleParams, "records").value.0, ruleParams) == Ok(None)
  {
  }

  /** The field table of a well-formed describe response has one row per field. */
  lemma FieldTable(describe: Value, fs: seq<Value>, fieldParams: seq<string>)
    requires Get(describe, "fields") == Ok(List(fs)) && |fs| > 0 && fs[0].Object?
    requires Distinct(fieldParams) && "name" in fieldParams && AllCellsOk(fs, fieldParams)
    ensures AddRecords(NoColumns, fs, fieldParams).Ok?
    ensures var d := AddRecords(NoColumns, fs, fieldParams).value;
      && Parse(describe, fieldParams, "fields") == Ok((d, Keys(fs[0].fields)))
      && ColumnLength(d, "name") == Ok(|fs|)
      && Render(d, |fs|, fieldParams).Ok?
  {
    TableOf(describe, fieldParams, "fields", List(fs), fs, Keys(fs[0].fields), "name");
  }

  /** For a describe response whose every field has the requested columns
      and a rule response whose every rule has the requested columns,
      `show_object` succeeds: the field table has one row per field, the
      additional columns are the first field's keys, and the rule table is
      absent exactly when there are no rules. */
  lemma ViewWellFormed(describe: Value, fs: seq<Value>, rulesResponse: Value, rs: seq<Value>,
                       fieldParams: seq<string>, ruleParams: seq<string>)
    requires Get(describe, "fields") == Ok(List(fs)) && |fs| > 0 && fs[0].Object?
    requires Distinct(fieldParams) && "name" in fieldParams && AllCellsOk(fs, fieldParams)
    requires Get(rulesResponse, "records") == Ok(List(rs))
    requires Distinct(ruleParams) && "Id" in ruleParams && AllCellsOk(rs, ruleParams)
    ensures ViewWith(describe, rulesResponse, fieldParams, ruleParams).Ok?
    ensures var v := ViewWith(describe, rulesResponse, fieldParams, ruleParams).value;
      var d := AddRecords(NoColumns, fs, fieldParams).value;
      && Render(d, |fs|, fieldParams).Ok?
      && v.structure == Render(d, |fs|, fieldParams).value
      && v.additionalColumns == Keys(fs[0].fields)
      && (v.rules.None? <==> |rs| == 0)
  {
    assert Iterate(List(rs)) == Ok(rs);
    RulesNoneIffNoRecords(rulesResponse, List(rs), rs, ruleParams);
    FieldTable(describe, fs, fieldParams);
  }

  /** `ViewWellFormed` for the column lists `show_object` uses, which are
      distinct and hold `name` and `Id`. */
  lemma ShowObjectWellFormed(describe: Value, fs: seq<Value>, rulesResponse: Value, rs: seq<Value>)
    requires Get(describe, "fields") == Ok(List(fs)) && |fs| > 0 && fs[0].Object?
    requires AllCellsOk(fs, FieldParams)
    requires Get(rulesResponse, "records") == Ok(List(rs))
    requires AllCellsOk(rs, RuleParams)
    ensures ViewOf(describe, rulesResponse).Ok?
    ensures var v := ViewOf(describe, rulesResponse).value;
      var d := AddRecords(NoColumns, fs, FieldParams).value;
      && Render(d, |fs|, FieldParams).Ok?
      && v.structure == Render(d, |fs|, FieldParams).value
      && v.additionalColumns == Keys(fs[0].fields)
      && (v.rules.None? <==> |rs| == 0)
  {
    FieldParamsDistinct();
    RuleParamsDistinct();
    ViewWellFormed(describe, fs, rulesResponse, rs, FieldParams, RuleParams);
  }

  /** An object with no fields fails before any table is built. */
  lemma ViewNoFields(describe: Value, rulesResponse: Value, fieldParams: seq<string>, ruleParams: seq<string>)
    requires Get(describe, "fields") == Ok(List([]))
    ensures ViewWith(describe, rulesResponse, fieldParams, ruleParams) == Err(IndexError)
  {
    ParseNoFields(describe, fieldParams);
  }
}
