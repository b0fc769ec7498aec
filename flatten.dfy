/** `parse_response`: flattening a list of JSON records into one index-aligned
    list per requested column (the dict `d`), plus, for the `fields` key, the
    key list of the first record. */
module Flatten {
  import opened Json
  import Text

  /** The one column whose values are rewritten rather than copied. */
  const PicklistColumn := "picklistValues"

  /** The dict `d`: its keys in insertion order and the list stored under each. */
  datatype Columns = Columns(keys: seq<string>, lists: map<string, seq<Value>>)

  const NoColumns := Columns([], map[])

  ghost predicate Distinct(ps: seq<string>)
  {
    forall i, j :: 0 <= i < j < |ps| ==> ps[i] != ps[j]
  }

  /** `d.get(p, list())`. */
  function Column(c: Columns, p: string): seq<Value>
  {
    if p in c.lists then c.lists[p] else []
  }

  /** `d[p] = d.get(p, list())` followed by `d[p].append(v)`: a new key goes
      to the end of the key order. */
  function Append(c: Columns, p: string, v: Value): Columns
  {
    if p in c.lists then Columns(c.keys, c.lists[p := c.lists[p] + [v]])
    else Columns(c.keys + [p], c.lists[p := [v]])
  }

  /** `'"{}"'.format(e['value'])`. */
  function QuotedValue(e: Value): Result<string>
  {
    var v :- Get(e, "value");
    Ok(Quote(ToStr(v)))
  }

  /** `'"{}"'.format(x)`. */
  function Quote(x: string): string
  {
    "\"" + x + "\""
  }

  /** Each string in double quotes, in order. */
  function QuoteEach(xs: seq<string>): (qs: seq<string>)
    ensures |qs| == |xs|
    ensures forall k :: 0 <= k < |xs| ==> qs[k] == Quote(xs[k])
  {
    if |xs| == 0 then [] else [Quote(xs[0])] + QuoteEach(xs[1..])
  }

  /** The list comprehension over a picklist, evaluated left to right. */
  function QuoteAll(es: seq<Value>): Result<seq<string>>
  {
    if |es| == 0 then Ok([])
    else
      var q :- QuotedValue(es[0]);
      var rest :- QuoteAll(es[1..]);
      Ok([q] + rest)
  }

  /** `','.join([ '"{}"'.format(e['value']) for e in v ])`. */
  function JoinPicklist(v: Value): Result<Value>
  {
    var es :- Iterate(v);
    var qs :- QuoteAll(es);
    Ok(Str(Text.Join(qs, ",")))
  }

  /** What record `r` contributes to column `p`. */
  function Cell(r: Value, p: string): Result<Value>
  {
    var v :- Get(r, p);
    if p != PicklistColumn then Ok(v) else JoinPicklist(v)
  }

  /** The inner loop `for p in ps` on record `r`, from dict `c`. */
  function AddRecord(c: Columns, r: Value, ps: seq<string>): Result<Columns>
    decreases ps
  {
    if |ps| == 0 then Ok(c)
    else
      var v :- Cell(r, ps[0]);
      AddRecord(Append(c, ps[0], v), r, ps[1..])
  }

  /** The outer loop `for r in rs`, from dict `c`. */
  function AddRecords(c: Columns, rs: seq<Value>, ps: seq<string>): Result<Columns>
    decreases rs
  {
    if |rs| == 0 then Ok(c)
    else
      var c' :- AddRecord(c, rs[0], ps);
      AddRecords(c', rs[1..], ps)
  }

  /** `list(records[0].keys())`. */
  function FirstKeys(records: Value): Result<seq<string>>
  {
    match records
    case List(items) =>
      if |items| == 0 then Err(IndexError)
      else if items[0].Object? then Ok(Keys(items[0].fields))
      else Err(AttributeError)
    case Str(s) => if |s| == 0 then Err(IndexError) else Err(AttributeError)
    case Object(_) => Err(KeyError(Int(0)))
    case _ => Err(TypeError)
  }

  /** `parse_response(response, params, key)`: the dict `d` and `additional_columns`. */
  function Parse(response: Value, params: seq<string>, key: string): Result<(Columns, seq<string>)>
  {
    var records :- Get(response, key);
    var additional :- if key == "fields" then FirstKeys(records) else Ok([]);
    var rs :- Iterate(records);
    var d :- AddRecords(NoColumns, rs, params);
    Ok((d, additional))
  }

  /** `parse_response` as the source runs it: two nested loops growing `d`. */
  method ParseResponse(response: Value, params: seq<string>, key: string)
      returns (r: Result<(Columns, seq<string>)>)
    ensures r == Parse(response, params, key)
  {
    var records :- Get(response, key);
    var additional: seq<string> := [];
    if key == "fields" {
      additional :- FirstKeys(records);
    }
    var rs :- Iterate(records);
    var d := NoColumns;
    var i := 0;
    while i < |rs|
      invariant i <= |rs|
      invariant AddRecords(NoColumns, rs, params) == AddRecords(d, rs[i..], params)
    {
      assert rs[i..][1..] == rs[i + 1..];
      ghost var before := d;
      var j := 0;
      while j < |params|
        invariant j <= |params|
        invariant AddRecord(before, rs[i], params) == AddRecord(d, rs[i], params[j..])
      {
        assert params[j..][1..] == params[j + 1..];
        var v :- Cell(rs[i], params[j]);
        d := Append(d, params[j], v);
        j := j + 1;
      }
      i := i + 1;
    }
    return Ok((d, additional));
  }

  // ---------------------------------------------------------------------
  // What the flattening means

  /** Every requested column can be read from every record. */
  ghost predicate AllCellsOk(rs: seq<Value>, ps: seq<string>)
  {
    forall i, p :: 0 <= i < |rs| && p in ps ==> Cell(rs[i], p).Ok?
  }

  /** Every cell before (i, j) in the order the loops visit them can be read. */
  ghost predicate CellsOkBefore(rs: seq<Value>, ps: seq<string>, i: nat, j: nat)
  {
    && (forall i', p :: 0 <= i' < i && i' < |rs| && p in ps ==> Cell(rs[i'], p).Ok?)
    && (forall j' :: 0 <= j' < j && j' < |ps| && i < |rs| ==> Cell(rs[i], ps[j']).Ok?)
  }

  lemma {:induction false} AddRecordOk(c: Columns, r: Value, ps: seq<string>)
    ensures AddRecord(c, r, ps).Ok? <==> forall p :: p in ps ==> Cell(r, p).Ok?
    decreases ps
  {
    if |ps| > 0 {
      var v := Cell(r, ps[0]);
      if v.Ok? {
        AddRecordOk(Append(c, ps[0], v.value), r, ps[1..]);
        assert forall p :: p in ps <==> p == ps[0] || p in ps[1..];
      }
    }
  }

  lemma {:induction false} AddRecordError(c: Columns, r: Value, ps: seq<string>, j: nat)
    requires j < |ps| && Cell(r, ps[j]).Err?
    requires forall j' :: 0 <= j' < j ==> Cell(r, ps[j']).Ok?
    ensures AddRecord(c, r, ps) == Err(Cell(r, ps[j]).error)
    decreases ps
  {
    if j > 0 {
      AddRecordError(Append(c, ps[0], Cell(r, ps[0]).value), r, ps[1..], j - 1);
    }
  }

  /** The flattening succeeds exactly when every requested column can be read
      from every record. */
  lemma {:induction false} AddRecordsOk(c: Columns, rs: seq<Value>, ps: seq<string>)
    ensures AddRecords(c, rs, ps).Ok? <==> AllCellsOk(rs, ps)
    decreases rs
  {
    if |rs| > 0 {
      AddRecordOk(c, rs[0], ps);
      var c' := AddRecord(c, rs[0], ps);
      if c'.Ok? {
        AddRecordsOk(c'.value, rs[1..], ps);
        assert forall i :: 0 < i < |rs| ==> rs[i] == rs[1..][i - 1];
      }
    }
  }

  /** A failure is the one raised by the first unreadable cell, in the order
      records-then-columns in which the loops visit them. */
  lemma {:induction false} AddRecordsError(c: Columns, rs: seq<Value>, ps: seq<string>, i: nat, j: nat)
    requires i < |rs| && j < |ps| && Cell(rs[i], ps[j]).Err?
    requires CellsOkBefore(rs, ps, i, j)
    ensures AddRecords(c, rs, ps) == Err(Cell(rs[i], ps[j]).error)
    decreases rs
  {
    if i == 0 {
      assert forall j' :: 0 <= j' < j ==> Cell(rs[0], ps[j']).Ok?;
      AddRecordError(c, rs[0], ps, j);
    } else {
      var c' := SkipFirstRecord(c, rs, ps, i, j);
      AddRecordsError(c', rs[1..], ps, i - 1, j);
    }
  }

  /** When the first record is read without error, the loop goes on with the
      dict it produced and the remaining records. */
  lemma SkipFirstRecord(c: Columns, rs: seq<Value>, ps: seq<string>, i: nat, j: nat) returns (c': Columns)
    requires 0 < i < |rs| && j < |ps|
    requires CellsOkBefore(rs, ps, i, j)
    ensures AddRecord(c, rs[0], ps) == Ok(c')
    ensures AddRecords(c, rs, ps) == AddRecords(c', rs[1..], ps)
    ensures CellsOkBefore(rs[1..], ps, i - 1, j) && rs[1..][i - 1] == rs[i]
  {
    assert forall p :: p in ps ==> Cell(rs[0], p).Ok?;
    AddRecordOk(c, rs[0], ps);
    c' := AddRecord(c, rs[0], ps).value;
    var rest := rs[1..];
    assert forall i' :: 0 <= i' < |rest| ==> rest[i'] == rs[i' + 1];
  }

  /** One record, distinct columns, all readable: each requested column gets
      the record's cell appended and every other column is left alone. */
  lemma {:induction false} AddRecordLists(c: Columns, r: Value, ps: seq<string>)
    requires Distinct(ps)
    requires forall p :: p in ps ==> Cell(r, p).Ok?
    ensures AddRecord(c, r, ps).Ok?
    ensures var c' := AddRecord(c, r, ps).value;
      && (forall p :: p in c'.lists <==> p in c.lists || p in ps)
      && (forall p :: p in ps ==> p in c'.lists && c'.lists[p] == Column(c, p) + [Cell(r, p).value])
      && (forall p :: p in c.lists && p !in ps ==> p in c'.lists && c'.lists[p] == c.lists[p])
    decreases ps
  {
    if |ps| > 0 {
      var p0 := ps[0];
      var c1 := Append(c, p0, Cell(r, p0).value);
      assert Distinct(ps[1..]);
      assert forall p :: p in ps <==> p == p0 || p in ps[1..];
      assert p0 !in ps[1..] by {
        forall k | 0 <= k < |ps[1..]| ensures ps[1..][k] != p0 { assert ps[1..][k] == ps[k + 1]; }
      }
      AddRecordLists(c1, r, ps[1..]);
      var c' := AddRecord(c1, r, ps[1..]).value;
      assert AddRecord(c, r, ps) == Ok(c');
      forall p | p in ps ensures c'.lists[p] == Column(c, p) + [Cell(r, p).value] {
        if p != p0 {
          assert Column(c1, p) == Column(c, p);
        }
      }
    }
  }

  /** One record, all readable: the key order gains the requested columns when
      none of them is present yet, and stays as it is when all of them are. */
  lemma {:induction false} AddRecordKeys(c: Columns, r: Value, ps: seq<string>)
    requires Distinct(ps)
    requires forall p :: p in ps ==> Cell(r, p).Ok?
    ensures AddRecord(c, r, ps).Ok?
    ensures (forall p :: p in ps ==> p !in c.lists) ==> AddRecord(c, r, ps).value.keys == c.keys + ps
    ensures (forall p :: p in ps ==> p in c.lists) ==> AddRecord(c, r, ps).value.keys == c.keys
    decreases ps
  {
    if |ps| == 0 {
      assert c.keys + ps == c.keys;
    } else {
      var p0 := ps[0];
      var c1 := Append(c, p0, Cell(r, p0).value);
      assert Distinct(ps[1..]);
      assert p0 !in ps[1..] by {
        forall k | 0 <= k < |ps[1..]| ensures ps[1..][k] != p0 { assert ps[1..][k] == ps[k + 1]; }
      }
      assert forall p :: p in ps[1..] ==> p in ps;
      AddRecordKeys(c1, r, ps[1..]);
      if forall p :: p in ps ==> p !in c.lists {
        assert c1.keys == c.keys + [p0];
        assert c.keys + ps == c.keys + [p0] + ps[1..];
      }
    }
  }

  /** Column `p` of the expected result: record `i`'s cell at `i`. */
  function ColumnOf(rs: seq<Value>, p: string): (col: seq<Value>)
    requires forall i :: 0 <= i < |rs| ==> Cell(rs[i], p).Ok?
    ensures |col| == |rs|
    ensures forall i :: 0 <= i < |rs| ==> col[i] == Cell(rs[i], p).value
  {
    if |rs| == 0 then []
    else ColumnOf(rs[..|rs| - 1], p) + [Cell(rs[|rs| - 1], p).value]
  }

  /** The result described column by column: no keys for no records, otherwise
      the requested columns in order, each holding its `ColumnOf`. */
  function Expected(rs: seq<Value>, ps: seq<string>): Columns
    requires AllCellsOk(rs, ps)
  {
    if |rs| == 0 then NoColumns
    else Columns(ps, map p | p in ps :: ColumnOf(rs, p))
  }

  /** Appending record `r` to the expected result of `rs` gives the expected
      result of `rs + [r]`. */
  lemma ExpectedStep(rs: seq<Value>, r: Value, ps: seq<string>)
    requires Distinct(ps) && AllCellsOk(rs + [r], ps)
    ensures AllCellsOk(rs, ps)
    ensures AddRecord(Expected(rs, ps), r, ps) == Ok(Expected(rs + [r], ps))
  {
    var all := rs + [r];
    assert AllCellsOk(rs, ps) by {
      assert forall i :: 0 <= i < |rs| ==> all[i] == rs[i];
    }
    assert forall p :: p in ps ==> Cell(r, p).Ok? by {
      assert all[|rs|] == r;
    }
    var c := Expected(rs, ps);
    AddRecordKeys(c, r, ps);
    var c' := AddRecord(c, r, ps).value;
    var e := Expected(all, ps);
    assert c'.keys == e.keys by {
      if |rs| == 0 {
        assert forall p :: p !in c.lists;
      } else {
        assert forall p :: p in ps ==> p in c.lists;
      }
    }
    ExpectedStepLists(rs, r, ps);
  }

  lemma ExpectedStepLists(rs: seq<Value>, r: Value, ps: seq<string>)
    requires Distinct(ps) && AllCellsOk(rs, ps) && AllCellsOk(rs + [r], ps)
    requires forall p :: p in ps ==> Cell(r, p).Ok?
    ensures AddRecord(Expected(rs, ps), r, ps).Ok?
    ensures AddRecord(Expected(rs, ps), r, ps).value.lists == Expected(rs + [r], ps).lists
  {
    var all := rs + [r];
    var c := Expected(rs, ps);
    AddRecordLists(c, r, ps);
    var c' := AddRecord(c, r, ps).value;
    var e := Expected(all, ps);
    assert forall p :: p in c.lists ==> p in ps;
    assert forall p :: p in e.lists <==> p in ps;
    assert forall p :: p in c'.lists <==> p in ps;
    forall p | p in ps ensures c'.lists[p] == e.lists[p] {
      ColumnOfAppend(rs, r, p);
    }
    SameMap(c'.lists, e.lists);
  }

  lemma ColumnOfAppend(rs: seq<Value>, r: Value, p: string)
    requires forall i :: 0 <= i < |rs| ==> Cell(rs[i], p).Ok?
    requires Cell(r, p).Ok?
    ensures forall i :: 0 <= i < |rs + [r]| ==> Cell((rs + [r])[i], p).Ok?
    ensures ColumnOf(rs + [r], p) == ColumnOf(rs, p) + [Cell(r, p).value]
  {
    var all := rs + [r];
    assert all[..|rs|] == rs;
    assert all[|rs|] == r;
  }

  lemma SameMap(m: map<string, seq<Value>>, m': map<string, seq<Value>>)
    requires forall k :: k in m <==> k in m'
    requires forall k :: k in m ==> m[k] == m'[k]
    ensures m == m'
  {
  }

  lemma {:induction false} AddRecordsExpected(done: seq<Value>, rs: seq<Value>, ps: seq<string>)
    requires Distinct(ps) && AllCellsOk(done + rs, ps)
    ensures AllCellsOk(done, ps)
    ensures AddRecords(Expected(done, ps), rs, ps) == Ok(Expected(done + rs, ps))
    decreases rs
  {
    var all := done + rs;
    assert forall i :: 0 <= i < |done| ==> all[i] == done[i];
    if |rs| == 0 {
      assert all == done;
    } else {
      var next := done + [rs[0]];
      assert all == next + rs[1..];
      assert forall i :: 0 <= i < |next| ==> all[i] == next[i];
      ExpectedStep(done, rs[0], ps);
      AddRecordsExpected(next, rs[1..], ps);
    }
  }

  /** With distinct requested columns and every cell readable, `d` has the
      requested columns in order (none at all for no records), each holding
      one entry per record, record `i`'s value unchanged at `i` except that a
      picklist becomes its joined string. */
  lemma Flattened(rs: seq<Value>, ps: seq<string>)
    requires Distinct(ps) && AllCellsOk(rs, ps)
    ensures AddRecords(NoColumns, rs, ps).Ok?
    ensures var d := AddRecords(NoColumns, rs, ps).value;
      && (|rs| == 0 ==> d == NoColumns)
      && (|rs| > 0 ==> d.keys == ps && d.lists.Keys == set p | p in ps)
      && (forall p :: p in ps && |rs| > 0 ==> p in d.lists && |d.lists[p]| == |rs|)
      && (forall p, i :: p in ps && p != PicklistColumn && 0 <= i < |rs| ==>
            d.lists[p][i] == Get(rs[i], p).value)
      && (forall i :: PicklistColumn in ps && 0 <= i < |rs| ==>
            d.lists[PicklistColumn][i] == JoinPicklist(Get(rs[i], PicklistColumn).value).value)
  {
    assert [] + rs == rs;
    assert Expected([], ps) == NoColumns;
    AddRecordsExpected([], rs, ps);
    var d := Expected(rs, ps);
    assert AddRecords(NoColumns, rs, ps) == Ok(d);
    if |rs| > 0 {
      forall p, i | p in ps && p != PicklistColumn && 0 <= i < |rs|
        ensures d.lists[p][i] == Get(rs[i], p).value
      {
        assert d.lists[p] == ColumnOf(rs, p);
      }
      forall i | PicklistColumn in ps && 0 <= i < |rs|
        ensures d.lists[PicklistColumn][i] == JoinPicklist(Get(rs[i], PicklistColumn).value).value
      {
        assert d.lists[PicklistColumn] == ColumnOf(rs, PicklistColumn);
      }
    }
  }

  // ---------------------------------------------------------------------
  // parse_response as a whole

  /** For a well-formed response the result is the flattened records, and
      `additional_columns` is the first record's key list for `fields` and
      empty for any other key. */
  lemma ParseWellFormed(response: Value, params: seq<string>, key: string, rs: seq<Value>)
    requires Get(response, key) == Ok(List(rs))
    requires key == "fields" ==> |rs| > 0 && rs[0].Object?
    requires Distinct(params) && AllCellsOk(rs, params)
    ensures Parse(response, params, key).Ok?
    ensures var (d, additional) := Parse(response, params, key).value;
      && d == AddRecords(NoColumns, rs, params).value
      && (|rs| == 0 ==> d == NoColumns)
      && (|rs| > 0 ==> d.keys == params)
      && (forall p :: p in params && |rs| > 0 ==> p in d.lists && |d.lists[p]| == |rs|)
      && additional == if key == "fields" then Keys(rs[0].fields) else []
  {
    Flattened(rs, params);
  }

  /** `fields` with no records fails on `[0]` before the loop runs. */
  lemma ParseNoFields(response: Value, params: seq<string>)
    requires Get(response, "fields") == Ok(List([]))
    ensures Parse(response, params, "fields") == Err(IndexError)
  {
  }

  /** The first record (in loop order) that lacks a requested column makes the
      whole call fail with `KeyError` naming that column. */
  lemma ParseMissingColumn(response: Value, params: seq<string>, key: string, rs: seq<Value>, i: nat, j: nat)
    requires Get(response, key) == Ok(List(rs))
    requires key == "fields" ==> |rs| > 0 && rs[0].Object?
    requires i < |rs| && j < |params| && CellsOkBefore(rs, params, i, j)
    requires rs[i].Object? && params[j] !in KeySet(rs[i].fields)
    ensures Parse(response, params, key) == Err(KeyError(Str(params[j])))
  {
    AddRecordsError(NoColumns, rs, params, i, j);
  }

  /** A picklist becomes its `value`s, each in double quotes, joined by `,`;
      an empty picklist becomes the empty string. */
  lemma PicklistJoined(es: seq<Value>, xs: seq<string>)
    requires |es| == |xs|
    requires forall k :: 0 <= k < |es| ==> Get(es[k], "value").Ok? && ToStr(Get(es[k], "value").value) == xs[k]
    ensures QuoteAll(es) == Ok(QuoteEach(xs))
    ensures JoinPicklist(List(es)) == Ok(Str(Text.Join(QuoteEach(xs), ",")))
  {
    QuoteAllOf(es, xs);
    assert Iterate(List(es)) == Ok(es);
  }

  lemma {:induction false} QuoteAllOf(es: seq<Value>, xs: seq<string>)
    requires |es| == |xs|
    requires forall k :: 0 <= k < |es| ==> Get(es[k], "value").Ok? && ToStr(Get(es[k], "value").value) == xs[k]
    ensures QuoteAll(es) == Ok(QuoteEach(xs))
  {
    if |es| > 0 {
      assert forall k :: 0 <= k < |es| - 1 ==> es[1..][k] == es[k + 1] && xs[1..][k] == xs[k + 1];
      QuoteAllOf(es[1..], xs[1..]);
      assert QuotedValue(es[0]) == Ok(Quote(xs[0]));
      assert QuoteEach(xs) == [Quote(xs[0])] + QuoteEach(xs[1..]);
    }
  }
}
