/** The values that `json.loads` hands to the viewer, the Python exceptions the
    viewer's code can raise on them, and the parts of Python's object protocol
    it relies on: subscripting with a string key, iteration, `str()`. */
module Json {
  import Text

  /** A decoded JSON document. An object keeps its key/value pairs in document
      order, as written; `Keys` and `Get` give the dict Python builds from them. */
  datatype Value =
    | Null
    | Bool(b: bool)
    | Int(i: int)
    | Str(s: string)
    | List(items: seq<Value>)
    | Object(fields: seq<(string, Value)>)

  /** The exceptions raised by the modelled code. */
  datatype Error =
    | KeyError(key: Value)   // a dict has no such key
    | IndexError             // a list or string is too short
    | TypeError              // not subscriptable, not iterable, wrong index type, unhashable
    | AttributeError         // `.keys()` on something that is not a dict

  datatype Result<+T> = Ok(value: T) | Err(error: Error) {
    predicate IsFailure() { Err? }
    function PropagateFailure<U>(): Result<U> requires Err? { Err(error) }
    function Extract(): T requires Ok? { value }
  }

  /** The keys that occur among the pairs. */
  function KeySet(fields: seq<(string, Value)>): set<string>
  {
    set i | 0 <= i < |fields| :: fields[i].0
  }

  /** The pair at which `key` first occurs: where the dict places it. */
  function FirstIndex(fields: seq<(string, Value)>, key: string): (i: nat)
    requires key in KeySet(fields)
    ensures i < |fields| && fields[i].0 == key
    ensures forall j :: 0 <= j < i ==> fields[j].0 != key
  {
    if fields[0].0 == key then 0
    else
      assert key in KeySet(fields[1..]) by {
        var j :| 0 <= j < |fields| && fields[j].0 == key;
        assert fields[1..][j - 1].0 == key;
      }
      1 + FirstIndex(fields[1..], key)
  }

  /** The dict's key order: each key once, ordered by first occurrence. */
  function Keys(fields: seq<(string, Value)>): (ks: seq<string>)
    ensures forall k :: k in ks <==> k in KeySet(fields)
    ensures forall i, j :: 0 <= i < j < |ks| ==> ks[i] != ks[j]
    ensures forall i, j :: 0 <= i < j < |ks| ==> FirstIndex(fields, ks[i]) < FirstIndex(fields, ks[j])
  {
    if |fields| == 0 then []
    else
      var n := |fields| - 1;
      var init := fields[..n];
      var ks := Keys(init);
      assert KeySet(fields) == KeySet(init) + {fields[n].0};
      FirstIndexPrefix(fields, n);
      if fields[n].0 in ks then ks else ks + [fields[n].0]
  }

  /** A key of a prefix first occurs at the same place in the whole; the key
      of the pair just after the prefix, if new, first occurs there. */
  lemma FirstIndexPrefix(fields: seq<(string, Value)>, n: nat)
    requires n < |fields|
    ensures forall k :: k in KeySet(fields[..n]) ==> k in KeySet(fields) && FirstIndex(fields, k) == FirstIndex(fields[..n], k) < n
    ensures fields[n].0 !in KeySet(fields[..n]) ==> FirstIndex(fields, fields[n].0) == n
  {
    forall k | k in KeySet(fields[..n])
      ensures k in KeySet(fields) && FirstIndex(fields, k) == FirstIndex(fields[..n], k) < n
    {
      var a := FirstIndex(fields[..n], k);
      assert fields[a].0 == k;
      assert forall j :: 0 <= j < a ==> fields[j].0 == fields[..n][j].0;
    }
    if fields[n].0 !in KeySet(fields[..n]) {
      var k := fields[n].0;
      assert forall j :: 0 <= j < n ==> fields[j].0 == fields[..n][j].0;
      assert forall j :: 0 <= j < n ==> fields[..n][j].0 in KeySet(fields[..n]);
    }
  }

  /** The pair that supplies the dict's value for `key`: the last one with
      that key, since `json.loads` lets a later duplicate overwrite an earlier. */
  function LastIndex(fields: seq<(string, Value)>, key: string): (i: nat)
    requires key in KeySet(fields)
    ensures i < |fields| && fields[i].0 == key
    ensures forall j :: i < j < |fields| ==> fields[j].0 != key
  {
    var n := |fields| - 1;
    if fields[n].0 == key then n
    else
      assert key in KeySet(fields[..n]) by {
        var j :| 0 <= j < |fields| && fields[j].0 == key;
        assert fields[..n][j].0 == key;
      }
      LastIndex(fields[..n], key)
  }

  /** `v[key]` with a string key. */
  function Get(v: Value, key: string): (r: Result<Value>)
    ensures r.Ok? <==> v.Object? && key in KeySet(v.fields)
    ensures r.Err? ==> r.error == if v.Object? then KeyError(Str(key)) else TypeError
    ensures r.Ok? ==> r.value == v.fields[LastIndex(v.fields, key)].1
  {
    match v
    case Object(fields) =>
      if key in KeySet(fields) then Ok(fields[LastIndex(fields, key)].1) else Err(KeyError(Str(key)))
    case _ => Err(TypeError)
  }

  /** A successful `v[key]` returns the value of a pair carrying `key` that
      no later pair overrides: a duplicate key's last value wins. */
  lemma GetLastPair(v: Value, key: string)
    requires Get(v, key).Ok?
    ensures exists i :: 0 <= i < |v.fields| && v.fields[i] == (key, Get(v, key).value)
                        && forall j :: i < j < |v.fields| ==> v.fields[j].0 != key
  {
    var i := LastIndex(v.fields, key);
    assert v.fields[i] == (key, Get(v, key).value);
  }

  /** What `for e in v` visits: a list's items, a string's characters, a
      dict's keys; anything else is not iterable. */
  function Iterate(v: Value): Result<seq<Value>>
  {
    match v
    case List(items) => Ok(items)
    case Str(s) => Ok(seq(|s|, i requires 0 <= i < |s| => Str([s[i]])))
    case Object(fields) =>
      var ks := Keys(fields);
      Ok(seq(|ks|, i requires 0 <= i < |ks| => Str(ks[i])))
    case _ => Err(TypeError)
  }

  /** `str(v)`, which is also what `'{}'.format(v)` inserts. */
  function ToStr(v: Value): string
  {
    if v.Str? then v.s else Repr(v)
  }

  /** `repr(v)`: how a value is written inside `str()` of a list or dict. */
  function Repr(v: Value): string
  {
    match v
    case Null => "None"
    case Bool(b) => if b then "True" else "False"
    case Int(i) => IntToString(i)
    case Str(s) => QuoteString(s)
    case List(items) =>
      "[" + Text.Join(seq(|items|, k requires 0 <= k < |items| => Repr(items[k])), ", ") + "]"
    case Object(fields) =>
      var ks := Keys(fields);
      "{" + Text.Join(seq(|ks|, k requires 0 <= k < |ks| =>
                            var i := LastIndex(fields, ks[k]);
                            QuoteString(ks[k]) + ": " + Repr(fields[i].1)), ", ") + "}"
  }

  /** `repr(s)` of a string: single quotes unless the string holds a single
      quote and no double quote; backslash, the chosen quote, tab, newline and
      carriage return are escaped. */
  function QuoteString(s: string): string
  {
    var q := if '\'' in s && '"' !in s then '"' else '\'';
    [q] + Escape(s, q) + [q]
  }

  function Escape(s: string, q: char): string
  {
    if |s| == 0 then ""
    else
      var c := s[0];
      var e :=
        if c == '\\' then "\\\\"
        else if c == q then ['\\', q]
        else if c == '\n' then "\\n"
        else if c == '\r' then "\\r"
        else if c == '\t' then "\\t"
        else [c];
      e + Escape(s[1..], q)
  }

  /** `str(i)` of an integer: optional minus sign, decimal digits. */
  function IntToString(i: int): string
  {
    if i < 0 then "-" + NatToString(-i) else NatToString(i)
  }

  function NatToString(n: nat): string
  {
    if n < 10 then [Digit(n)] else NatToString(n / 10) + [Digit(n % 10)]
  }

  function Digit(d: nat): char
    requires d < 10
  {
    "0123456789"[d]
  }
}
