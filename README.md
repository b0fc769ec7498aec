# Salesforce metadata viewer: flattening and table rendering

A Dafny model of the data-handling core of a small Streamlit app (`app.py`)
that logs in to a Salesforce instance, lists its objects and shows an
object's fields and validation rules as HTML tables. The model covers the
steps that run once a response has been decoded from JSON:

- `parse_response` (module `Flatten`). It turns a list of JSON records into
  a dict of index-aligned column lists, one per requested column. A
  `picklistValues` list becomes one `,`-joined string of quoted values. For
  the `fields` key it also returns the key list of the first record.
- `prepare_html_table` (module `HtmlTable`). It builds the HTML fragment:
  - a fixed preamble;
  - one `<th>` per dict key;
  - `length` rows with one `<td>` per requested column, each cell chosen by
    the rule for its column-name prefix;
  - the closing tags.
- The catalog loop in `load_objects` (module `Catalog`). It builds the
  label → API-name dict from the `sobjects` array. A later duplicate label
  overwrites an earlier one.
- The request URLs (module `Endpoints`). The instance URL has its trailing
  `/` stripped, and `/`-joined segments follow it.
- `show_object` (module `ObjectView`). It combines the field table, the
  validation-rule table and the "no rules" decision (`None` for an empty
  rule dict).

Two modules support these:

- `Json` models the decoded JSON values and the parts of Python's behaviour
  the code depends on:
  - `d[k]` on a dict, with the last duplicate key winning and dict key order
    being first-occurrence order;
  - iteration over lists, strings and dicts;
  - `str`/`repr`;
  - the exceptions these raise (`KeyError`, `IndexError`, `TypeError`,
    `AttributeError`).
- `Text` models `join`, `split`, `rstrip` and `replace`.

An exception appears as an `Err` result. The model never requires
well-formed input.

The loops in the source are Dafny methods:

- `Flatten.ParseResponse` (both loops of `parse_response`);
- `HtmlTable.PrepareHtmlTable` (the key loop and the row loop);
- `HtmlTable.AppendCells` (the column loop inside each row);
- `Catalog.BuildCatalog` (the loop of `load_objects`).

Each of these is proved equal to a specification function built on a
recursive one (`Parse` on `AddRecords`, `Render` on `Rows` and `RowCells`,
`CatalogOf` on `Fill`). The lemmas then state what those functions compute. `show_object` has no loop of
its own. It is the method `ObjectView.ShowObject`, which calls the loop
methods in the source's order and is proved equal to the non-recursive
function `ObjectView.ViewOf`.

## Model

| member | source | states |
|---|---|---|
| Json.Get | app.py:86 | `v[key]` succeeds exactly on a dict that has the key and then returns the value of the last pair carrying it; otherwise it raises `KeyError(key)` on a dict and `TypeError` on anything else |
| Json.GetLastPair | app.py:86 | a successful `v[key]` returns the value of a pair `(key, value)` that no later pair with the same key overrides |
| Json.Keys | app.py:80 | a dict's key list holds every key once and nothing else, ordered by each key's first occurrence |
| Json.LastIndex | app.py:86 | the value for a key comes from the last pair carrying that key |
| Text.RStrip | app.py:30 | `rstrip(c)` keeps a prefix that does not end in `c`; everything it drops is `c` |
| Text.RemoveChar | app.py:104 | `replace('"', '')` removes every `"` and keeps every other character the same number of times |
| Text.SplitJoin | app.py:104 | for at least one piece, splitting a `,`-join on `,` gives back the pieces when no piece holds a comma (with none, `','.join([])` is `''`, which splits into `['']`) |
| Text.JoinSplit | app.py:104 | joining the pieces of a split with the separator gives back the string |
| Flatten.ParseResponse | app.py:76-89 | the nested `for r` / `for p` loops yield exactly `Parse`: the columns and `additional_columns`, or the first exception raised |
| Flatten.AddRecordOk | app.py:83-88 | one record is added without error iff every requested column can be read from it |
| Flatten.AddRecordsOk | app.py:82-88 | flattening succeeds iff every requested column can be read from every record |
| Flatten.AddRecordsError | app.py:82-88 | a failure is the exception of the first unreadable cell, in records-then-columns order |
| Flatten.AddRecordLists | app.py:84-88 | one record appends its cell to each requested column and leaves other columns alone |
| Flatten.AddRecordKeys | app.py:84 | for distinct columns: when none of the requested columns is present yet (the first record) they join the key order at the end in order, and when all are present (every later record) the key order is unchanged |
| Flatten.Flattened | app.py:82-88 | no records gives an empty dict; otherwise the keys are the requested columns in order, each list has one entry per record, record `i`'s value sits unchanged at `i`, and a picklist is replaced by its joined string |
| Flatten.ParseWellFormed | app.py:76-89 | for a well-formed response the result is the flattened records, and `additional_columns` is the first record's keys for `fields` and empty otherwise |
| Flatten.ParseNoFields | app.py:79-80 | `fields` with no records fails with `IndexError` on `[0]` |
| Flatten.ParseMissingColumn | app.py:86 | a record lacking a requested column fails with `KeyError` naming that column |
| Flatten.PicklistJoined | app.py:88 | a picklist becomes its `value`s in double quotes joined by `,`, and an empty picklist becomes `""` |
| HtmlTable.PrepareHtmlTable | app.py:91-119 | the `+=` loops over keys, rows and columns yield exactly `Render`, including the first exception raised |
| HtmlTable.AppendCells | app.py:101-114 | the inner `for p in params` loop appends exactly the row's cells after the HTML so far, or stops with the first exception |
| HtmlTable.HeaderStep | app.py:97-98 | each key adds one `<th>` after those of the keys before it |
| HtmlTable.RowCellsLayout | app.py:101-114 | a row is the concatenation of one `<td>` per requested column, in order |
| HtmlTable.RowsLayout | app.py:99-115 | rows `i` up to `n` are the rows written out one after another, each in `<tr>` |
| HtmlTable.RenderOk | app.py:97-117 | the table is built iff `length <= 0` or every requested column exists with at least `length` entries |
| HtmlTable.RenderLayout | app.py:92-117 | the table is the preamble, one `<th>` per dict key in dict order, exactly `length` rows (none if `length <= 0`) of one `<td>` per requested column, then `</table></div></div>`. Each `<td>` follows its column's rule, tested in this order: a `picklistValues…` column holds a `<select>` of the options of a non-empty string and nothing otherwise; a `referenceTo…` column holds `str` of the first element of a non-empty list and nothing otherwise; any other column holds `str(value)` |
| HtmlTable.RenderError | app.py:101-114 | a failure is an `IndexError` or a `KeyError` naming a requested column missing from the dict |
| HtmlTable.OptionsOfQuoted | app.py:104 | for at least one entry, splitting a joined picklist string gives one option per entry, with the added quotes removed, when no entry holds a comma |
| HtmlTable.PicklistCell | app.py:102-107 | when no entry holds a comma, a picklist column shows a `<select>` with one `<option>` per entry; an empty picklist gives an empty cell |
| HtmlTable.CommaSplitsEntry | app.py:104 | a single picklist entry `x,y` (no `"` and no further comma) is shown as two options, `x` and `y`, because the cell splits on every comma, not only on the separators the join inserted |
| Catalog.Entry | app.py:69 | an entry contributes `(label, name)` iff it has both keys and a hashable label; a non-dict entry raises `TypeError`, a dict without `name` raises `KeyError('name')` (even when `label` is missing too), one with `name` but no `label` raises `KeyError('label')`, and a list or dict label raises `TypeError` |
| Catalog.BuildCatalog | app.py:67-70 | the loop yields exactly `CatalogOf`: the dict, or the first exception raised |
| Catalog.FillOk | app.py:68-69 | the loop completes iff every entry has a `name`, a `label` and a hashable label |
| Catalog.FillError | app.py:68-69 | a failure is the exception of the first failing entry |
| Catalog.FillKeys | app.py:68-69 | the dict's keys are its starting keys plus every label |
| Catalog.FillKeeps | app.py:68-69 | a key that is no entry's label keeps its value |
| Catalog.FillLast | app.py:69 | a label maps to the name of the last entry carrying it (last write wins) |
| Catalog.CatalogContents | app.py:67-70 | the catalog holds exactly the labels, each mapped to the name of its last entry |
| Catalog.CatalogNoObjects | app.py:68 | a response without `sobjects` fails with `KeyError` |
| Catalog.DuplicateLabel | app.py:69 | two objects labelled `Account` leave only the second one's name in the catalog |
| Endpoints.NormalizeBase | app.py:30 | the base is a prefix of the URL that does not end in `/`, and every dropped character is `/` |
| Endpoints.TokenUrl | app.py:33 | the token URL is the stripped base followed by `/services/oauth2/token` |
| Endpoints.SobjectsUrl | app.py:60 | the listing URL is the base followed by `/services/data/v51.0/sobjects` |
| Endpoints.DescribeUrl | app.py:126 | the describe URL is the base followed by `/services/data/v51.0/sobjects/<name>/describe` |
| Endpoints.ToolingUrl | app.py:143 | the tooling URL is the base followed by `/services/data/v51.0/tooling/` and the query |
| Endpoints.RevokeUrl | app.py:172 | the revoke URL is the base followed by `/services/oauth2/revoke` |
| Endpoints.TrailingSlashIgnored | app.py:30 | a trailing `/` typed by the user changes neither the base nor the token URL, and stripping is idempotent |
| Endpoints.PathSegments | app.py:60 | splitting a built URL on `/` gives the base's pieces followed by the fixed segments |
| Endpoints.DescribeSegments | app.py:126 | an object name without `/` is exactly one path segment of the describe URL |
| ObjectView.ShowObject | app.py:122-155 | `show_object` after its two requests yields exactly `ViewOf`: field table, rule table or `None`, and additional columns |
| ObjectView.RulesNoneIffNoRecords | app.py:152-153 | the rules are `None` iff the query returned no records; otherwise they are the table with one row per rule |
| ObjectView.NoRulesIsNone | app.py:153 | an empty `records` list gives `None`, not a table with no rows |
| ObjectView.TableOf | app.py:134-155 | flattening records that all hold the distinct requested columns gives a non-empty dict whose chosen column has one entry per record and from which the whole table is built |
| ObjectView.FieldTable | app.py:134-139 | a well-formed describe response gives a field table with one row per field |
| ObjectView.ViewWellFormed | app.py:122-155 | for well-formed responses `show_object` succeeds with the field table, the first field's keys, and `None` iff there are no rules |
| ObjectView.ShowObjectWellFormed | app.py:122-155 | with the seven field columns and five rule columns `show_object` uses, well-formed responses give the field table with one row per field, the first field's keys as additional columns, and rules that are `None` iff there are no rules |
| ObjectView.ViewNoFields | app.py:136 | an object with no fields fails with `IndexError` before any table is built |

## Left out

- The Streamlit user interface is not modelled. This covers the style block, the sidebar form, the selectboxes, `st.write`, `components.html`, the rerun and stop calls, and `st.session_state` (app.py:8-22, 186-301). It is a foreign framework with no local behaviour to state.
- The HTTP requests and `json.loads` are not modelled (app.py:42-45, 64-65, 130-131, 147-148, 178-181). Responses enter the model as already-decoded `Json.Value` parameters, and no status code is modelled.
- `login` and `logout` are modelled only through their URLs (`Endpoints.TokenUrl`, `Endpoints.RevokeUrl`). The request bodies, the status checks and the session updates are network and session I/O.
- The token-present guards (app.py:58, 170) are not modelled. The token lives in session state, which is left out.
- The validation-rule SOQL text (app.py:142) enters `Endpoints.ToolingUrl` as a parameter. The text interpolates the object name without escaping, so a name holding `'` changes the query. This is an injection risk with no local behaviour to verify.
- `pd.DataFrame(d)` (app.py:137) and the CSV/base64 download link (app.py:158-162) are not modelled. Their behaviour lives in pandas and base64.
- The secrets-file autocomplete and the password comparison (app.py:189-222) are not modelled. They are configuration I/O.
- Floating-point JSON numbers are not represented in `Json.Value`, which has integers only.
- `Json.Repr`: escapes only backslash, the chosen quote, newline, carriage return and tab. Python's `repr` also escapes other non-printable characters with `\x`, `\u` and `\U`.
- Catalog.Hashable: treats `True`/`1` and `False`/`0` as different dict keys. Python treats them as the same key, so two labels `1` and `true` would collide in Python but not in the model.
- Catalog.Fill: the catalog is a Dafny `map`, which has no key order. The Python dict keeps each label at the place of its first insertion, and a later duplicate keeps that place (app.py:67-69); that order is the order of the object selectbox (app.py:253). The model states which labels the catalog holds and what each maps to, not their order.
- `len(d)` at app.py:153 is modelled as the length of the dict's key order. The two agree for every dict built by `parse_response`.
- Flatten.Flattened: is stated only for distinct requested columns. With a column requested twice, the model appends twice per record, as the source does, but no lemma describes that shape. The columns passed in app.py:134 and 150 are distinct.
