/** `prepare_html_table`: the HTML fragment built from the flattened columns,
    a row count and the ordered list of columns to show. */
module HtmlTable {
  import opened Json
  import opened Flatten
  import Text

  /** The style sheet, the three scripts and the opening of the table, in order. */
  const Preamble :=
    "<link rel=\"stylesheet\" href=\"https://maxcdn.bootstrapcdn.com/bootstrap/4.5.2/css/bootstrap.min.css\">"
    + "<script src=\"https://ajax.googleapis.com/ajax/libs/jquery/3.5.1/jquery.min.js\"></script>"
    + "<script src=\"https://cdnjs.cloudflare.com/ajax/libs/popper.js/1.16.0/umd/popper.min.js\"></script>"
    + "<script src=\"https://maxcdn.bootstrapcdn.com/bootstrap/4.5.2/js/bootstrap.min.js\"></script>"
    + "<div class=\"container\" style=\"max-width: 100%\"><div class=\"table-responsive\" style=\"max-height: 500px\"><table class=\"table table-bordered\">"

  const TableEnd := "</table></div></div>"

  const SelectOpen := "<select style=\"width: 200px\">"

  /** Columns whose name starts with these get a cell rule of their own. */
  const PicklistPrefix := "picklistValues"
  const ReferencePrefix := "referenceTo"

  function HeaderCell(k: string): string
  {
    "<th>" + k + "</th>"
  }

  /** One `<th>` per key of the dict, in its key order. */
  function Header(keys: seq<string>): string
  {
    if |keys| == 0 then "" else HeaderCell(keys[0]) + Header(keys[1..])
  }

  function OptionTag(piece: string): string
  {
    "<option>" + Text.RemoveChar(piece, '"') + "</option>"
  }

  /** One `<option>` per piece, with `"` removed from it. */
  function OptionList(pieces: seq<string>): string
  {
    if |pieces| == 0 then "" else OptionTag(pieces[0]) + OptionList(pieces[1..])
  }

  /** The options of a picklist cell: one per `,`-separated piece. */
  function Options(s: string): string
  {
    OptionList(Text.Split(s, ','))
  }

  /** What goes between `<td>` and `</td>` for value `v` of column `p`. */
  function CellText(p: string, v: Value): string
  {
    if PicklistPrefix <= p then
      if v.Str? && |v.s| > 0 then SelectOpen + Options(v.s) + "</select>" else ""
    else if ReferencePrefix <= p then
      if v.List? && |v.items| > 0 then ToStr(v.items[0]) else ""
    else ToStr(v)
  }

  function TableCell(p: string, v: Value): string
  {
    "<td>" + CellText(p, v) + "</td>"
  }

  /** `d[p][i]`. */
  function CellAt(d: Columns, p: string, i: nat): Result<Value>
  {
    if p !in d.lists then Err(KeyError(Str(p)))
    else if i < |d.lists[p]| then Ok(d.lists[p][i])
    else Err(IndexError)
  }

  /** The cells of row `i` for the columns `ps`, left to right. */
  function RowCells(d: Columns, i: nat, ps: seq<string>): Result<string>
  {
    if |ps| == 0 then Ok("")
    else
      var v :- CellAt(d, ps[0], i);
      var rest :- RowCells(d, i, ps[1..]);
      Ok(TableCell(ps[0], v) + rest)
  }

  /** The rows `i` up to `n` (exclusive), each wrapped in `<tr>`. */
  function Rows(d: Columns, i: nat, n: int, ps: seq<string>): Result<string>
    decreases n - i
  {
    if i >= n then Ok("")
    else
      var row :- RowCells(d, i, ps);
      var rest :- Rows(d, i + 1, n, ps);
      Ok("<tr>" + row + "</tr>" + rest)
  }

  /** `prepare_html_table(d, length, params)`. */
  function Render(d: Columns, length: int, ps: seq<string>): Result<string>
  {
    var rows :- Rows(d, 0, length, ps);
    Ok(Preamble + Header(d.keys) + rows + TableEnd)
  }

  /** `prefix` in front of a successful result. */
  function Prepend(prefix: string, r: Result<string>): Result<string>
  {
    if r.Ok? then Ok(prefix + r.value) else r
  }

  /** `prefix` in front of and the end of the table after a successful result. */
  function Finish(prefix: string, r: Result<string>): Result<string>
  {
    if r.Ok? then Ok(prefix + r.value + TableEnd) else r
  }

  /** `prepare_html_table` as the source runs it: `html` grows by `+=` over
      the keys, then over the rows and, within a row, over the columns. */
  method PrepareHtmlTable(d: Columns, length: int, params: seq<string>) returns (r: Result<string>)
    ensures r == Render(d, length, params)
  {
    var html := Preamble;
    var k := 0;
    while k < |d.keys|
      invariant k <= |d.keys|
      invariant html == Preamble + Header(d.keys[..k])
    {
      assert d.keys[..k + 1] == d.keys[..k] + [d.keys[k]];
      HeaderStep(d.keys[..k], d.keys[k]);
      html := html + HeaderCell(d.keys[k]);
      k := k + 1;
    }
    assert d.keys[..k] == d.keys;
    var i := 0;
    while i < length
      invariant 0 <= i
      invariant Render(d, length, params) == Finish(html, Rows(d, i, length, params))
    {
      ghost var before := html;
      html :- AppendCells(html + "<tr>", d, i, params);
      ghost var cells := html[|before| + 4..];
      assert html == before + "<tr>" + cells;
      html := html + "</tr>";
      RowsStep(d, i, length, params, before, cells);
      i := i + 1;
    }
    assert html + "" == html;
    return Ok(html + TableEnd);
  }

  /** The loop `for p in params` of row `i`: one cell per column after `html`. */
  method AppendCells(html: string, d: Columns, i: nat, params: seq<string>) returns (r: Result<string>)
    ensures r == Prepend(html, RowCells(d, i, params))
  {
    var out := html;
    var j := 0;
    assert params[j..] == params;
    while j < |params|
      invariant j <= |params|
      invariant Prepend(html, RowCells(d, i, params)) == Prepend(out, RowCells(d, i, params[j..]))
    {
      var p := params[j];
      var v :- CellAt(d, p, i);
      RowCellsStep(d, i, params, j, out, v);
      out := out + TableCell(p, v);
      j := j + 1;
    }
    assert params[j..] == [];
    assert out + "" == out;
    return Ok(out);
  }

  lemma RowCellsStep(d: Columns, i: nat, ps: seq<string>, j: nat, cells: string, v: Value)
    requires j < |ps| && CellAt(d, ps[j], i) == Ok(v)
    ensures Prepend(cells, RowCells(d, i, ps[j..]))
         == Prepend(cells + TableCell(ps[j], v), RowCells(d, i, ps[j + 1..]))
  {
    assert ps[j..][1..] == ps[j + 1..];
    var rest := RowCells(d, i, ps[j + 1..]);
    if rest.Ok? {
      assert cells + (TableCell(ps[j], v) + rest.value) == cells + TableCell(ps[j], v) + rest.value;
    }
  }

  lemma RowsStep(d: Columns, i: nat, n: int, ps: seq<string>, before: string, cells: string)
    requires i < n && RowCells(d, i, ps) == Ok(cells)
    ensures Finish(before, Rows(d, i, n, ps)) == Finish(before + "<tr>" + cells + "</tr>", Rows(d, i + 1, n, ps))
  {
    var rest := Rows(d, i + 1, n, ps);
    if rest.Ok? {
      assert Rows(d, i, n, ps) == Ok("<tr>" + cells + "</tr>" + rest.value);
      assert before + ("<tr>" + cells + "</tr>" + rest.value) + TableEnd
          == before + "<tr>" + cells + "</tr>" + rest.value + TableEnd;
    }
  }

  lemma {:induction false} HeaderStep(keys: seq<string>, k: string)
    ensures Header(keys + [k]) == Header(keys) + HeaderCell(k)
  {
    if |keys| == 0 {
      assert keys + [k] == [k];
    } else {
      assert (keys + [k])[1..] == keys[1..] + [k];
      HeaderStep(keys[1..], k);
    }
  }

  // ---------------------------------------------------------------------
  // What the table contains

  /** Every column to show exists and has at least `n` entries. */
  ghost predicate ColumnsCover(d: Columns, n: int, ps: seq<string>)
  {
    forall p :: p in ps ==> p in d.lists && n <= |d.lists[p]|
  }

  /** The cells of row `i` written out: one `<td>` per column, in the order given. */
  function RowCellList(d: Columns, i: nat, ps: seq<string>): (cells: seq<string>)
    requires ColumnsCover(d, i + 1, ps)
    ensures |cells| == |ps|
    ensures forall j :: 0 <= j < |ps| ==> cells[j] == TableCell(ps[j], d.lists[ps[j]][i])
  {
    seq(|ps|, j requires 0 <= j < |ps| => TableCell(ps[j], d.lists[ps[j]][i]))
  }

  /** Row `i` written out. */
  function RowHtml(d: Columns, i: nat, ps: seq<string>): string
    requires ColumnsCover(d, i + 1, ps)
  {
    "<tr>" + Text.Concat(RowCellList(d, i, ps)) + "</tr>"
  }

  /** Rows `i` to `i + count` (exclusive) written out. */
  function RowList(d: Columns, i: nat, count: nat, ps: seq<string>): (rows: seq<string>)
    requires ColumnsCover(d, i + count, ps)
    ensures |rows| == count
    ensures forall k :: 0 <= k < count ==> rows[k] == RowHtml(d, i + k, ps)
  {
    seq(count, k requires 0 <= k < count => RowHtml(d, i + k, ps))
  }

  lemma {:induction false} RowCellsOk(d: Columns, i: nat, ps: seq<string>)
    ensures RowCells(d, i, ps).Ok? <==> ColumnsCover(d, i + 1, ps)
  {
    if |ps| > 0 {
      RowCellsOk(d, i, ps[1..]);
      assert forall p :: p in ps <==> p == ps[0] || p in ps[1..];
    }
  }

  lemma {:induction false} RowsOk(d: Columns, i: nat, n: int, ps: seq<string>)
    requires i < n
    ensures Rows(d, i, n, ps).Ok? <==> ColumnsCover(d, n, ps)
    decreases n - i
  {
    RowCellsOk(d, i, ps);
    if i + 1 < n {
      RowsOk(d, i + 1, n, ps);
    }
  }

  /** The table can be built exactly when no row is asked for or every column
      to show exists with at least `length` entries. */
  lemma RenderOk(d: Columns, length: int, ps: seq<string>)
    ensures Render(d, length, ps).Ok? <==> length <= 0 || ColumnsCover(d, length, ps)
  {
    if length > 0 {
      RowsOk(d, 0, length, ps);
    }
  }

  lemma {:induction false} RowCellsLayout(d: Columns, i: nat, ps: seq<string>)
    requires ColumnsCover(d, i + 1, ps)
    ensures RowCells(d, i, ps) == Ok(Text.Concat(RowCellList(d, i, ps)))
  {
    if |ps| > 0 {
      assert ColumnsCover(d, i + 1, ps[1..]) by {
        assert forall p :: p in ps[1..] ==> p in ps;
      }
      RowCellsLayout(d, i, ps[1..]);
      assert RowCellList(d, i, ps)[1..] == RowCellList(d, i, ps[1..]);
    }
  }

  lemma {:induction false} RowsLayout(d: Columns, i: nat, n: int, ps: seq<string>)
    requires ColumnsCover(d, n, ps)
    ensures i >= n ==> Rows(d, i, n, ps) == Ok("")
    ensures i < n ==> Rows(d, i, n, ps) == Ok(Text.Concat(RowList(d, i, n - i, ps)))
    decreases n - i
  {
    if i < n {
      RowCellsLayout(d, i, ps);
      RowsLayout(d, i + 1, n, ps);
      var rows := RowList(d, i, n - i, ps);
      if i + 1 < n {
        assert rows[1..] == RowList(d, i + 1, n - i - 1, ps);
      } else {
        assert rows[1..] == [];
      }
      assert rows[0] == RowHtml(d, i, ps);
    }
  }

  /** A table that can be built is the preamble, one `<th>` per key of the
      dict in its key order, `length` rows (none when `length` is not
      positive) of one `<td>` per column in `ps`, and the closing tags. */
  lemma RenderLayout(d: Columns, length: int, ps: seq<string>)
    requires length <= 0 || ColumnsCover(d, length, ps)
    ensures length <= 0 ==> Render(d, length, ps) == Ok(Preamble + Header(d.keys) + TableEnd)
    ensures length > 0 ==>
      Render(d, length, ps) == Ok(Preamble + Header(d.keys) + Text.Concat(RowList(d, 0, length, ps)) + TableEnd)
  {
    if length > 0 {
      RowsLayout(d, 0, length, ps);
    } else {
      assert Preamble + Header(d.keys) + "" == Preamble + Header(d.keys);
    }
  }

  lemma {:induction false} RowCellsError(d: Columns, i: nat, ps: seq<string>)
    requires RowCells(d, i, ps).Err?
    ensures RowCells(d, i, ps).error == IndexError
         || exists p :: p in ps && p !in d.lists && RowCells(d, i, ps).error == KeyError(Str(p))
  {
    if CellAt(d, ps[0], i).Ok? {
      RowCellsError(d, i, ps[1..]);
      assert forall p :: p in ps[1..] ==> p in ps;
    }
  }

  lemma {:induction false} RowsError(d: Columns, i: nat, n: int, ps: seq<string>)
    requires Rows(d, i, n, ps).Err?
    ensures Rows(d, i, n, ps).error == IndexError
         || exists p :: p in ps && p !in d.lists && Rows(d, i, n, ps).error == KeyError(Str(p))
    decreases n - i
  {
    if RowCells(d, i, ps).Err? {
      RowCellsError(d, i, ps);
    } else {
      RowsError(d, i + 1, n, ps);
    }
  }

  /** A table that cannot be built fails on `d[p]` with `KeyError` for a
      column `p` the dict lacks, or on `[i]` with `IndexError`. */
  lemma RenderError(d: Columns, length: int, ps: seq<string>)
    requires Render(d, length, ps).Err?
    ensures Render(d, length, ps).error == IndexError
         || exists p :: p in ps && p !in d.lists && Render(d, length, ps).error == KeyError(Str(p))
  {
    RowsError(d, 0, length, ps);
  }

  // ---------------------------------------------------------------------
  // Picklist cells

  /** Quoting each entry, joining with `,` and then splitting the result
      again on `,` gives one option per entry, provided no entry holds a
      comma; the quotes added around each entry are removed again. */
  lemma {:induction false} OptionsOfQuoted(xs: seq<string>)
    requires |xs| > 0
    requires forall k :: 0 <= k < |xs| ==> ',' !in xs[k]
    ensures Options(Text.Join(QuoteEach(xs), ",")) == OptionList(xs)
  {
    var qs := QuoteEach(xs);
    forall k | 0 <= k < |qs|
      ensures ',' !in qs[k]
    {
      assert qs[k] == "\"" + xs[k] + "\"";
    }
    Text.SplitJoin(qs, ',');
    OptionListQuoted(xs);
  }

  lemma {:induction false} OptionListQuoted(xs: seq<string>)
    ensures OptionList(QuoteEach(xs)) == OptionList(xs)
  {
    if |xs| > 0 {
      var x := xs[0];
      Text.RemoveCharAppend("\"" + x, "\"", '"');
      Text.RemoveCharAppend("\"", x, '"');
      assert Text.RemoveChar(Quote(x), '"') == Text.RemoveChar(x, '"');
      assert QuoteEach(xs)[1..] == QuoteEach(xs[1..]);
      OptionListQuoted(xs[1..]);
    }
  }

  /** The picklist column of a record shows a drop-down with one option per
      picklist entry (its `value`, without double quotes) when the picklist
      is not empty and no entry holds a comma, and an empty cell when the
      picklist is empty. */
  lemma PicklistCell(p: string, es: seq<Value>, xs: seq<string>)
    requires PicklistPrefix <= p
    requires |es| == |xs|
    requires forall k :: 0 <= k < |es| ==> Get(es[k], "value").Ok? && ToStr(Get(es[k], "value").value) == xs[k]
    requires forall k :: 0 <= k < |xs| ==> ',' !in xs[k]
    ensures JoinPicklist(List(es)).Ok?
    ensures TableCell(p, JoinPicklist(List(es)).value) ==
      "<td>" + (if |xs| == 0 then "" else SelectOpen + OptionList(xs) + "</select>") + "</td>"
  {
    PicklistJoined(es, xs);
    if |xs| > 0 {
      OptionsOfQuoted(xs);
      var qs := QuoteEach(xs);
      assert |Text.Join(qs, ",")| >= |qs[0]|;
    }
  }

  /** A single picklist entry whose value holds a comma is shown as two
      options: the cell splits on every comma, not only on the separators
      it inserted itself. */
  lemma CommaSplitsEntry(x: string, y: string)
    requires ',' !in x && ',' !in y && '"' !in x && '"' !in y
    ensures Options(Quote(x + "," + y)) == "<option>" + x + "</option>" + "<option>" + y + "</option>"
  {
    var left, right := "\"" + x, y + "\"";
    assert Quote(x + "," + y) == left + [','] + right;
    Text.SplitAfterPiece(left, ',', right);
    Text.SplitNoSeparator(right, ',');
    StripQuote(x);
    StripQuote(y);
    var pieces := [left, right];
    assert pieces[1..] == [right];
    assert OptionList(pieces[1..]) == OptionTag(right);
  }

  lemma StripQuote(x: string)
    requires '"' !in x
    ensures OptionTag("\"" + x) == OptionTag(x + "\"") == "<option>" + x + "</option>"
  {
    Text.RemoveCharAppend("\"", x, '"');
    Text.RemoveCharAppend(x, "\"", '"');
  }
}
