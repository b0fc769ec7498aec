/** The object catalog built by `load_objects`: a dict from each object's
    label to its API name, filled from the `sobjects` array of the listing
    response. */
module Catalog {
  import opened Json

  /** A dict key must be hashable: lists and dicts are not. */
  predicate Hashable(v: Value)
  {
    !(v.List? || v.Object?)
  }

  /** What one entry of `sobjects` contributes: `obj['name']` is evaluated
      first, then `obj['label']`, then the label is hashed as a key. */
  function Entry(obj: Value): (r: Result<(Value, Value)>)
    ensures r.Ok? <==> Get(obj, "name").Ok? && Get(obj, "label").Ok? && Hashable(Get(obj, "label").value)
    ensures r.Ok? ==> r.value == (Get(obj, "label").value, Get(obj, "name").value)
    ensures !obj.Object? ==> r == Err(TypeError)
    ensures obj.Object? && "name" !in KeySet(obj.fields) ==> r == Err(KeyError(Str("name")))
    ensures obj.Object? && "name" in KeySet(obj.fields) && "label" !in KeySet(obj.fields) ==>
              r == Err(KeyError(Str("label")))
    ensures obj.Object? && "name" in KeySet(obj.fields) && "label" in KeySet(obj.fields) ==>
              (Hashable(Get(obj, "label").value) || r == Err(TypeError))
  {
    var name :- Get(obj, "name");
    var caption :- Get(obj, "label");
    if Hashable(caption) then Ok((caption, name)) else Err(TypeError)
  }

  /** The loop `for obj in objs: dct[obj['label']] = obj['name']`, from `dct`. */
  function Fill(dct: map<Value, Value>, objs: seq<Value>): Result<map<Value, Value>>
    decreases objs
  {
    if |objs| == 0 then Ok(dct)
    else
      var e :- Entry(objs[0]);
      Fill(dct[e.0 := e.1], objs[1..])
  }

  /** The catalog built from a listing response. */
  function CatalogOf(response: Value): Result<map<Value, Value>>
  {
    var sobjects :- Get(response, "sobjects");
    var objs :- Iterate(sobjects);
    Fill(map[], objs)
  }

  /** The catalog as `load_objects` builds it, one entry at a time. */
  method BuildCatalog(response: Value) returns (r: Result<map<Value, Value>>)
    ensures r == CatalogOf(response)
  {
    var sobjects :- Get(response, "sobjects");
    var objs :- Iterate(sobjects);
    var dct := map[];
    var i := 0;
    while i < |objs|
      invariant i <= |objs|
      invariant CatalogOf(response) == Fill(dct, objs[i..])
    {
      assert objs[i..][0] == objs[i] && objs[i..][1..] == objs[i + 1..];
      var obj := objs[i];
      var name :- Get(obj, "name");
      var caption :- Get(obj, "label");
      if !Hashable(caption) {
        return Err(TypeError);
      }
      dct := dct[caption := name];
      i := i + 1;
    }
    assert objs[i..] == [];
    return Ok(dct);
  }

  // ---------------------------------------------------------------------
  // What the catalog holds

  ghost predicate AllEntriesOk(objs: seq<Value>)
  {
    forall i :: 0 <= i < |objs| ==> Entry(objs[i]).Ok?
  }

  function Label(obj: Value): Value
    requires Entry(obj).Ok?
  {
    Entry(obj).value.0
  }

  function Name(obj: Value): Value
    requires Entry(obj).Ok?
  {
    Entry(obj).value.1
  }

  /** Entry `i` carries the last occurrence of its label. */
  ghost predicate LastWithLabel(objs: seq<Value>, i: nat)
    requires AllEntriesOk(objs) && i < |objs|
  {
    forall j :: i < j < |objs| ==> Label(objs[j]) != Label(objs[i])
  }

  /** The loop completes exactly when every entry has a `name`, a `label`
      and a hashable label. */
  lemma {:induction false} FillOk(dct: map<Value, Value>, objs: seq<Value>)
    ensures Fill(dct, objs).Ok? <==> AllEntriesOk(objs)
    decreases objs
  {
    if |objs| > 0 {
      var e := Entry(objs[0]);
      if e.Ok? {
        FillOk(dct[e.value.0 := e.value.1], objs[1..]);
        assert forall i :: 0 < i < |objs| ==> objs[i] == objs[1..][i - 1];
      }
    }
  }

  /** A failure is the one raised by the first entry that fails. */
  lemma {:induction false} FillError(dct: map<Value, Value>, objs: seq<Value>, i: nat)
    requires i < |objs| && Entry(objs[i]).Err?
    requires forall k :: 0 <= k < i ==> Entry(objs[k]).Ok?
    ensures Fill(dct, objs) == Err(Entry(objs[i]).error)
    decreases objs
  {
    if i > 0 {
      var e := Entry(objs[0]).value;
      assert objs[1..][i - 1] == objs[i];
      assert forall k :: 0 <= k < i - 1 ==> objs[1..][k] == objs[k + 1];
      FillError(dct[e.0 := e.1], objs[1..], i - 1);
    }
  }

  /** When every entry succeeds, the dict holds the keys it started with and
      every label, and nothing else. */
  lemma {:induction false} FillKeys(dct: map<Value, Value>, objs: seq<Value>)
    requires AllEntriesOk(objs)
    ensures Fill(dct, objs).Ok?
    ensures forall k :: k in Fill(dct, objs).value <==> k in dct || exists i :: 0 <= i < |objs| && Label(objs[i]) == k
    decreases objs
  {
    FillOk(dct, objs);
    if |objs| > 0 {
      var rest := objs[1..];
      assert forall i :: 0 < i < |objs| ==> objs[i] == rest[i - 1];
      var dct' := dct[Label(objs[0]) := Name(objs[0])];
      FillKeys(dct', rest);
      var m := Fill(dct', rest).value;
      assert Fill(dct, objs) == Ok(m);
      forall k ensures k in m <==> k in dct || exists i :: 0 <= i < |objs| && Label(objs[i]) == k {
        if exists i :: 0 <= i < |rest| && Label(rest[i]) == k {
          var i :| 0 <= i < |rest| && Label(rest[i]) == k;
          assert Label(objs[i + 1]) == k;
        }
        if exists i :: 0 <= i < |objs| && Label(objs[i]) == k {
          var i :| 0 <= i < |objs| && Label(objs[i]) == k;
          if i > 0 {
            assert Label(rest[i - 1]) == k;
          }
        }
      }
    }
  }

  /** A key that is no entry's label keeps the value it started with. */
  lemma {:induction false} FillKeeps(dct: map<Value, Value>, objs: seq<Value>, k: Value)
    requires AllEntriesOk(objs)
    requires k in dct && forall i :: 0 <= i < |objs| ==> Label(objs[i]) != k
    ensures Fill(dct, objs).Ok?
    ensures k in Fill(dct, objs).value && Fill(dct, objs).value[k] == dct[k]
    decreases objs
  {
    FillOk(dct, objs);
    if |objs| > 0 {
      var rest := objs[1..];
      assert forall i :: 0 < i < |objs| ==> objs[i] == rest[i - 1];
      var dct' := dct[Label(objs[0]) := Name(objs[0])];
      FillKeeps(dct', rest, k);
    }
  }

  /** A label maps to the name of the LAST entry carrying it: a later
      duplicate overwrites an earlier one. */
  lemma {:induction false} FillLast(dct: map<Value, Value>, objs: seq<Value>, i: nat)
    requires AllEntriesOk(objs)
    requires i < |objs| && LastWithLabel(objs, i)
    ensures Fill(dct, objs).Ok?
    ensures Label(objs[i]) in Fill(dct, objs).value && Fill(dct, objs).value[Label(objs[i])] == Name(objs[i])
    decreases objs
  {
    var dct' := FillStep(dct, objs);
    var rest := objs[1..];
    if i > 0 {
      TailEntries(objs, i);
      FillLast(dct', rest, i - 1);
    } else if |rest| > 0 {
      TailEntries(objs, 0);
      FillKeeps(dct', rest, Label(objs[0]));
    } else {
      assert Fill(dct', rest) == Ok(dct');
    }
  }

  /** One turn of the loop: the first entry is written, then the rest follow. */
  lemma FillStep(dct: map<Value, Value>, objs: seq<Value>) returns (dct': map<Value, Value>)
    requires |objs| > 0 && Entry(objs[0]).Ok?
    ensures dct' == dct[Label(objs[0]) := Name(objs[0])]
    ensures Fill(dct, objs) == Fill(dct', objs[1..])
  {
    dct' := dct[Label(objs[0]) := Name(objs[0])];
  }

  /** The entries after the first, seen from entry `i`: still all valid, and
      entry `i` still carries the last occurrence of its label. */
  lemma TailEntries(objs: seq<Value>, i: nat)
    requires AllEntriesOk(objs) && i < |objs| && LastWithLabel(objs, i) && |objs| > 1
    ensures AllEntriesOk(objs[1..])
    ensures i > 0 ==> objs[1..][i - 1] == objs[i] && LastWithLabel(objs[1..], i - 1)
    ensures i == 0 ==> forall j :: 0 <= j < |objs[1..]| ==> Label(objs[1..][j]) != Label(objs[0])
  {
    assert forall j :: 0 < j < |objs| ==> objs[j] == objs[1..][j - 1];
  }

  /** The whole of `load_objects` after the request: the catalog fails with
      `KeyError` when the response has no `sobjects`, and otherwise holds
      every label, each mapped to the name of its last entry. */
  lemma CatalogContents(response: Value, objs: seq<Value>)
    requires Get(response, "sobjects") == Ok(List(objs))
    requires AllEntriesOk(objs)
    ensures CatalogOf(response).Ok?
    ensures var m := CatalogOf(response).value;
      && (forall k :: k in m <==> exists i :: 0 <= i < |objs| && Label(objs[i]) == k)
      && (forall i :: 0 <= i < |objs| && LastWithLabel(objs, i) ==> m[Label(objs[i])] == Name(objs[i]))
  {
    FillKeys(map[], objs);
    forall i | 0 <= i < |objs| && LastWithLabel(objs, i)
      ensures CatalogOf(response).value[Label(objs[i])] == Name(objs[i])
    {
      FillLast(map[], objs, i);
    }
  }

  lemma CatalogNoObjects(response: Value)
    requires response.Object? && "sobjects" !in KeySet(response.fields)
    ensures CatalogOf(response) == Err(KeyError(Str("sobjects")))
  {
  }

  /** Two objects sharing the label `Account`: the catalog keeps the second. */
  lemma DuplicateLabel()
    ensures var first := Object([("name", Str("Account")), ("label", Str("Account"))]);
      var second := Object([("name", Str("Account2")), ("label", Str("Account"))]);
      Fill(map[], [first, second]) == Ok(map[Str("Account") := Str("Account2")])
  {
    var first := Object([("name", Str("Account")), ("label", Str("Account"))]);
    var second := Object([("name", Str("Account2")), ("label", Str("Account"))]);
    AccountEntry("Account");
    AccountEntry("Account2");
    var account := Str("Account");
    assert [first, second][1..] == [second];
    assert [second][1..] == [];
    assert Fill(map[], [first, second]) == Fill(map[account := account], [second]);
    assert Fill(map[account := account], [second]) == Fill(map[account := account][account := Str("Account2")], []);
    assert map[account := account][account := Str("Account2")] == map[account := Str("Account2")];
  }

  lemma AccountEntry(name: string)
    ensures Entry(Object([("name", Str(name)), ("label", Str("Account"))])) == Ok((Str("Account"), Str(name)))
  {
    var fields := [("name", Str(name)), ("label", Str("Account"))];
    assert fields[0].0 == "name" && fields[1].0 == "label";
    assert fields[..1] == [("name", Str(name))];
    assert "name" != "label";
    assert LastIndex(fields, "name") == 0;
    assert LastIndex(fields, "label") == 1;
  }
}
