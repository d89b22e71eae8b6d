/** formatear_datos_historicos: replacing driver ids by full names matched on surname. */
module Names {
  import opened Results
  import opened Text

  /** piloto.split()[-1].lower(): the lower-cased last word; IndexError when there is none. */
  function Surname(name: string): Result<string> {
    match LastWord(name)
    case None => Err(IndexError)
    case Some(word) => Ok(LowerAll(word))
  }

  /** A surname exists exactly when the name holds a non-whitespace character; it is then
      a non-empty word without whitespace or upper-case letters, and it ends the name up
      to case and trailing whitespace. */
  lemma {:induction false} SurnameShape(name: string)
    ensures Surname(name).Err? <==> Blank(name)
    ensures Surname(name).Err? ==> Surname(name).fault == IndexError
    ensures Surname(name).Ok? ==>
      var w := Surname(name).value;
      && |w| > 0
      && (forall i :: 0 <= i < |w| ==> !IsSpace(w[i]) && !IsUpper(w[i]))
      && w == LowerAll(TrailingWord(TrimEnd(name)))
  {
  }

  /** {key(x): x for x in xs}: entries go in list order, so a later entry overwrites an
      earlier one with the same key; the first key that raises aborts the comprehension. */
  function KeyedBy(xs: seq<string>, key: string -> Result<string>): (r: Result<map<string, string>>)
    ensures r.Ok? ==> forall i :: 0 <= i < |xs| ==> key(xs[i]).Ok? && key(xs[i]).value in r.value
    ensures r.Err? ==> exists i :: 0 <= i < |xs| && key(xs[i]) == Err(r.fault)
  {
    if |xs| == 0 then Ok(map[])
    else
      var last := xs[|xs| - 1];
      var init := xs[..|xs| - 1];
      assert forall i :: 0 <= i < |init| ==> init[i] == xs[i];
      var m :- KeyedBy(init, key);
      var k :- key(last);
      Ok(m[k := last])
  }

  /** The value stored under a key is the LAST entry with that key. */
  lemma {:induction false} KeyedByLastWins(xs: seq<string>, key: string -> Result<string>, i: nat)
    requires KeyedBy(xs, key).Ok?
    requires i < |xs|
    requires forall j :: i < j < |xs| ==> key(xs[j]) != key(xs[i])
    ensures KeyedBy(xs, key).value[key(xs[i]).value] == xs[i]
  {
    var n := |xs|;
    var init := xs[..n - 1];
    var last := xs[n - 1];
    assert KeyedBy(init, key).Ok? && key(last).Ok?;
    var m := KeyedBy(init, key).value;
    assert KeyedBy(xs, key).value == m[key(last).value := last];
    if i < n - 1 {
      assert init[i] == xs[i];
      forall j | i < j < |init|
        ensures key(init[j]) != key(init[i])
      {
        assert init[j] == xs[j];
      }
      KeyedByLastWins(init, key, i);
      assert key(last) != key(xs[i]);
    }
  }

  /** Every key of the result is the key of some entry. */
  lemma {:induction false} KeyedByKeys(xs: seq<string>, key: string -> Result<string>, k: string)
    requires KeyedBy(xs, key).Ok? && k in KeyedBy(xs, key).value
    ensures exists i :: 0 <= i < |xs| && key(xs[i]) == Ok(k)
  {
    var n := |xs|;
    var init := xs[..n - 1];
    if key(xs[n - 1]) != Ok(k) {
      KeyedByKeys(init, key, k);
      var i :| 0 <= i < |init| && key(init[i]) == Ok(k);
      assert init[i] == xs[i];
    }
  }

  /** nombre_mapeo: full names keyed by lower-cased surname. */
  function NameMap(names: seq<string>): Result<map<string, string>> {
    KeyedBy(names, Surname)
  }

  /** Every character of s is whitespace. */
  predicate Blank(s: string) {
    forall k :: 0 <= k < |s| ==> IsSpace(s[k])
  }

  /** Building the map raises exactly when some name has no word in it. */
  lemma {:induction false} NameMapRaises(names: seq<string>)
    ensures NameMap(names).Err? <==> exists i :: 0 <= i < |names| && Blank(names[i])
    ensures NameMap(names).Err? ==> NameMap(names).fault == IndexError
  {
    if NameMap(names).Err? {
      var i :| 0 <= i < |names| && Surname(names[i]) == Err(NameMap(names).fault);
      SurnameShape(names[i]);
      assert Blank(names[i]);
    }
    if i :| 0 <= i < |names| && Blank(names[i]) {
      SurnameShape(names[i]);
    }
  }

  /** str(x).split("_")[-1] looked up in the map, keeping x when absent. */
  function Resolve(m: map<string, string>, id: string): string {
    var key := LastSegment(id, '_');
    if key in m then m[key] else id
  }

  /** An id whose last '_' segment is no listed name's surname stays unchanged. */
  lemma {:induction false} ResolveUnmatched(names: seq<string>, id: string)
    requires NameMap(names).Ok?
    requires forall i :: 0 <= i < |names| ==> Surname(names[i]) != Ok(LastSegment(id, '_'))
    ensures Resolve(NameMap(names).value, id) == id
  {
    var key := LastSegment(id, '_');
    if key in NameMap(names).value {
      KeyedByKeys(names, Surname, key);
    }
  }

  /** An id resolves to the last listed name whose surname is the id's last '_' segment. */
  lemma {:induction false} ResolveMatched(names: seq<string>, id: string, i: nat)
    requires NameMap(names).Ok?
    requires i < |names| && Surname(names[i]) == Ok(LastSegment(id, '_'))
    requires forall j :: i < j < |names| ==> Surname(names[j]) != Surname(names[i])
    ensures Resolve(NameMap(names).value, id) == names[i]
  {
    KeyedByLastWins(names, Surname, i);
  }
}
