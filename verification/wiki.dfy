/** The two encyclopedia table scrapers: row selection and cell cleaning. */
module Wiki {
  import opened Results
  import opened Text
  import opened Ergast
  import opened Seqs

  // ---------------------------------------------------------------------------
  // re.sub(r"\[.*?\]", "", s)

  /** Where the non-greedy match that starts with a '[' just before `from` ends: the index
      of the first ']' at or after `from`, provided no newline comes first ('.' does not
      match a newline). */
  function CloseAt(s: string, from: nat): (r: Option<nat>)
    requires from <= |s|
    ensures r.Some? ==> from <= r.value < |s| && s[r.value] == ']'
    ensures r.Some? ==> forall k :: from <= k < r.value ==> s[k] != ']' && s[k] != '\n'
    ensures r.None? ==> forall k :: from <= k < |s| && s[k] == ']' ==> '\n' in s[from..k]
    decreases |s| - from
  {
    if from == |s| then None
    else if s[from] == ']' then Some(from)
    else if s[from] == '\n' then
      assert forall k :: from < k <= |s| ==> s[from..k][0] == '\n';
      None
    else
      var r := CloseAt(s, from + 1);
      assert forall k :: from < k <= |s| ==> s[from..k][1..] == s[from + 1..k];
      r
  }

  /** The match closes at the first ']' after the '[', provided no newline comes first. */
  lemma {:induction false} CloseAtFirst(s: string, from: nat, k: nat)
    requires from <= k < |s| && s[k] == ']'
    requires forall m :: from <= m < k ==> s[m] != ']' && s[m] != '\n'
    ensures CloseAt(s, from) == Some(k)
    decreases k - from
  {
    if from < k {
      CloseAtFirst(s, from + 1, k);
    }
  }

  /** Removes, left to right, every '[' together with everything up to the nearest ']'. */
  function StripReferences(s: string): (r: string)
    ensures IsSubsequence(r, s)
    ensures '[' !in s ==> r == s
    decreases |s|
  {
    if |s| == 0 then []
    else if s[0] == '[' && CloseAt(s, 1).Some? then
      var j := CloseAt(s, 1).value;
      var r := StripReferences(s[j + 1..]);
      SubsequenceOfSuffix(r, s, j + 1);
      r
    else
      var rest := s[1..];
      var r := StripReferences(rest);
      assert '[' !in s ==> '[' !in rest by {
        assert forall c :: c in rest ==> c in s;
      }
      var out := [s[0]] + r;
      assert out[0] == s[0] && out[1..] == r;
      assert IsSubsequence(out, s);
      out
  }

  /** No '[' is followed, anywhere later, by a ']'. */
  predicate NoReference(s: string) {
    forall i, j :: 0 <= i < j < |s| && s[i] == '[' ==> s[j] != ']'
  }

  /** No '[' is followed by a ']' on the same line: a newline lies between any '[' and
      any later ']'. */
  predicate NoLineReference(s: string) {
    forall i, j :: 0 <= i < j < |s| && s[i] == '[' && s[j] == ']' ==> exists m :: i < m < j && s[m] == '\n'
  }

  /** Every ']' comes after some newline. */
  predicate CloseAfterNewline(t: string) {
    forall k :: 0 <= k < |t| && t[k] == ']' ==> exists m :: 0 <= m < k && t[m] == '\n'
  }

  /** Removal keeps every ']' behind a newline: the removed references hold no newline,
      and text before the first newline holds no ']' to close one. */
  lemma {:induction false} StripKeepsCloseAfterNewline(t: string)
    requires CloseAfterNewline(t)
    ensures CloseAfterNewline(StripReferences(t))
    decreases |t|
  {
    if |t| > 0 {
      assert t[0] == '[' ==> CloseAt(t, 1).None?;
      if t[0] != '\n' {
        assert t[0] != ']';
        var tail := t[1..];
        assert CloseAfterNewline(tail) by {
          forall k | 0 <= k < |tail| && tail[k] == ']'
            ensures exists m :: 0 <= m < k && tail[m] == '\n'
          {
            assert t[k + 1] == ']';
            var m :| 0 <= m < k + 1 && t[m] == '\n';
            assert tail[m - 1] == '\n';
          }
        }
        StripKeepsCloseAfterNewline(tail);
        var rest := StripReferences(tail);
        var r := [t[0]] + rest;
        forall k | 0 <= k < |r| && r[k] == ']'
          ensures exists m :: 0 <= m < k && r[m] == '\n'
        {
          assert rest[k - 1] == ']';
          var m :| 0 <= m < k - 1 && rest[m] == '\n';
          assert r[m + 1] == '\n';
        }
      } else {
        var r := [t[0]] + StripReferences(t[1..]);
        assert r[0] == '\n';
        forall k | 0 <= k < |r| && r[k] == ']'
          ensures exists m :: 0 <= m < k && r[m] == '\n'
        {
          assert r[0] == '\n';
        }
      }
    }
  }

  /** After a '[' that the pattern cannot close, every ']' comes after a newline. */
  lemma {:induction false} UnclosedCloseAfterNewline(s: string, from: nat)
    requires from <= |s| && CloseAt(s, from).None?
    ensures CloseAfterNewline(s[from..])
  {
    var tail := s[from..];
    forall k | 0 <= k < |tail| && tail[k] == ']'
      ensures exists m :: 0 <= m < k && tail[m] == '\n'
    {
      assert s[from + k] == ']';
      assert '\n' in s[from..from + k];
      var m :| from <= m < from + k && s[m] == '\n';
      assert tail[m - from] == '\n';
    }
  }

  /** Putting a character in front keeps every '[' cut off from later ']'s, provided a
      leading '[' is itself cut off from them. */
  lemma {:induction false} ConsNoLineReference(c: char, rest: string)
    requires NoLineReference(rest)
    requires c == '[' ==> CloseAfterNewline(rest)
    ensures NoLineReference([c] + rest)
  {
    var r := [c] + rest;
    forall i, j | 0 <= i < j < |r| && r[i] == '[' && r[j] == ']'
      ensures exists m :: i < m < j && r[m] == '\n'
    {
      assert rest[j - 1] == ']';
      if i == 0 {
        var m :| 0 <= m < j - 1 && rest[m] == '\n';
        assert r[m + 1] == '\n';
      } else {
        assert rest[i - 1] == '[';
        var m :| i - 1 < m < j - 1 && rest[m] == '\n';
        assert r[m + 1] == '\n';
      }
    }
  }

  /** No reference that '.' could match survives the removal. */
  lemma {:induction false} StripLeavesNoLineReference(s: string)
    ensures NoLineReference(StripReferences(s))
    decreases |s|
  {
    if |s| > 0 {
      if s[0] == '[' && CloseAt(s, 1).Some? {
        var j := CloseAt(s, 1).value;
        StripLeavesNoLineReference(s[j + 1..]);
      } else {
        var tail := s[1..];
        StripLeavesNoLineReference(tail);
        if s[0] == '[' {
          UnclosedCloseAfterNewline(s, 1);
          StripKeepsCloseAfterNewline(tail);
        }
        ConsNoLineReference(s[0], StripReferences(tail));
      }
    }
  }

  /** In a single-line cell, no bracketed reference survives the removal. */
  lemma {:induction false} StripLeavesNoReference(s: string)
    requires '\n' !in s
    ensures NoReference(StripReferences(s))
  {
    var r := StripReferences(s);
    StripLeavesNoLineReference(s);
    SubsequenceChars(r, s);
    assert forall m :: 0 <= m < |r| ==> r[m] != '\n';
  }

  /** Text in which every '[' is cut off from each later ']' by a newline is left as it is. */
  lemma {:induction false} StripWithoutReference(s: string)
    requires NoLineReference(s)
    ensures StripReferences(s) == s
    decreases |s|
  {
    if |s| > 0 {
      assert s[0] == '[' ==> CloseAt(s, 1).None?;
      var tail := s[1..];
      assert NoLineReference(tail) by {
        forall i, j | 0 <= i < j < |tail| && tail[i] == '[' && tail[j] == ']'
          ensures exists m :: i < m < j && tail[m] == '\n'
        {
          assert s[i + 1] == '[' && s[j + 1] == ']';
          var m :| i + 1 < m < j + 1 && s[m] == '\n';
          assert tail[m - 1] == '\n';
        }
      }
      StripWithoutReference(tail);
    }
  }

  /** Text before the first '[' is kept as it is. */
  lemma {:induction false} StripKeepsPlainPrefix(a: string, b: string)
    requires '[' !in a
    ensures StripReferences(a + b) == a + StripReferences(b)
    decreases |a|
  {
    if |a| > 0 {
      var ab := a + b;
      assert ab[0] == a[0] && ab[1..] == a[1..] + b;
      assert '[' !in a[1..] by {
        assert forall c :: c in a[1..] ==> c in a;
      }
      StripKeepsPlainPrefix(a[1..], b);
      ConcatAssoc([a[0]], a[1..], StripReferences(b));
      assert [a[0]] + a[1..] == a;
    } else {
      assert a + b == b;
    }
  }

  /** A reference is removed up to its nearest ']' and no further, when no newline
      comes first. */
  lemma {:induction false} StripOneReference(x: string, b: string)
    requires ']' !in x && '\n' !in x
    ensures StripReferences("[" + x + "]" + b) == StripReferences(b)
  {
    var s := "[" + x + "]" + b;
    var j := |x| + 1;
    assert s[j] == ']';
    assert forall m :: 1 <= m < j ==> s[m] == x[m - 1];
    CloseAtFirst(s, 1, j);
    assert s[j + 1..] == b;
  }

  /** Removing references twice removes nothing more. */
  lemma {:induction false} StripIdempotent(s: string)
    ensures StripReferences(StripReferences(s)) == StripReferences(s)
  {
    StripLeavesNoLineReference(s);
    StripWithoutReference(StripReferences(s));
  }

  // ---------------------------------------------------------------------------
  // Cells

  const NotAvailable: string := "n/a"
  const Dash: string := "\U{2014}"
  const NoPredecessors: string := "Sin equipos antecedentes"

  /** A cell in obtener_equipos_historicos_wikipedia: references removed, and an exact "n/a" becomes a missing value. */
  function CleanHistoricCell(text: string): (r: Option<string>)
    ensures r.None? <==> StripReferences(text) == NotAvailable
    ensures r.Some? ==> r.value == StripReferences(text) && IsSubsequence(r.value, text)
  {
    var e := StripReferences(text);
    if e == NotAvailable then None else Some(e)
  }

  /** A cell in obtener_equipos_presentes_wikipedia: references removed, every '/' deleted, and an exact em dash replaced by
      the "no predecessor teams" text. */
  function CleanPresentCell(text: string): (r: string)
    ensures '/' !in r
    ensures r == NoPredecessors <==> Remove(StripReferences(text), '/') in {Dash, NoPredecessors}
    ensures r != NoPredecessors ==> IsSubsequence(r, text)
    ensures Remove(StripReferences(text), '/') != Dash ==> r == Remove(StripReferences(text), '/')
  {
    var e := Remove(StripReferences(text), '/');
    SubsequenceTransitive(e, StripReferences(text), text);
    if e == Dash then NoPredecessors else e
  }

  // ---------------------------------------------------------------------------
  // Tables

  datatype Cell = Td(text: string) | Th(text: string)

  /** A table row; the text of each cell is get_text(strip=True). */
  datatype Row = Row(cells: seq<Cell>)

  datatype Table = Table(rows: seq<Row>)

  /** A fetched page, reduced to its tables of class "wikitable" in document order. */
  datatype Page = Page(wikitables: seq<Table>)

  /** row.find_all("td"): the texts of the data cells, header cells left out. */
  function DataCells(row: Row): (r: seq<string>)
    ensures |r| <= |row.cells|
    ensures forall t :: t in r <==> Td(t) in row.cells
    decreases |row.cells|
  {
    if |row.cells| == 0 then []
    else
      var tail := row.cells[1..];
      var rest := DataCells(Row(tail));
      assert forall c :: c in row.cells <==> c == row.cells[0] || c in tail;
      if row.cells[0].Td? then [row.cells[0].text] + rest else rest
  }

  /** The data cells of a row split in two are those of each part, in order. */
  lemma {:induction false} DataCellsAppend(a: seq<Cell>, b: seq<Cell>)
    ensures DataCells(Row(a + b)) == DataCells(Row(a)) + DataCells(Row(b))
    decreases |a|
  {
    if |a| == 0 {
      assert a + b == b;
    } else {
      var ab := a + b;
      assert ab[0] == a[0] && ab[1..] == a[1..] + b;
      DataCellsAppend(a[1..], b);
      var head := if a[0].Td? then [a[0].text] else [];
      assert DataCells(Row(ab)) == head + DataCells(Row(a[1..] + b));
      assert DataCells(Row(a)) == head + DataCells(Row(a[1..]));
      ConcatAssoc(head, DataCells(Row(a[1..])), DataCells(Row(b)));
    }
  }

  /** Rows with more than one data cell. */
  function Kept(rows: seq<Row>): (r: seq<Row>)
    ensures |r| <= |rows|
    ensures forall row :: row in r ==> row in rows && |DataCells(row)| > 1
    ensures forall row :: row in rows && |DataCells(row)| > 1 ==> row in r
  {
    if |rows| == 0 then []
    else
      assert forall row :: row in rows[1..] ==> row in rows;
      assert forall row :: row in rows ==> row == rows[0] || row in rows[1..];
      (if |DataCells(rows[0])| > 1 then [rows[0]] else []) + Kept(rows[1..])
  }

  lemma KeptCons(row: Row, rows: seq<Row>)
    ensures Kept([row] + rows) == (if |DataCells(row)| > 1 then [row] else []) + Kept(rows)
  {
    var s := [row] + rows;
    assert s[0] == row && s[1..] == rows;
  }

  /** The rows kept from a + b are those kept from a followed by those kept from b: the
      filter keeps order and duplicates. */
  lemma {:induction false} KeptAppend(a: seq<Row>, b: seq<Row>)
    ensures Kept(a + b) == Kept(a) + Kept(b)
    decreases |a|
  {
    if |a| == 0 {
      assert a + b == b;
    } else {
      var head := if |DataCells(a[0])| > 1 then [a[0]] else [];
      assert a == [a[0]] + a[1..];
      assert a + b == [a[0]] + (a[1..] + b);
      KeptCons(a[0], a[1..]);
      KeptCons(a[0], a[1..] + b);
      KeptAppend(a[1..], b);
      ConcatAssoc(head, Kept(a[1..]), Kept(b));
    }
  }

  /** rows[1:]: everything after the header row. */
  function Body(rows: seq<Row>): (r: seq<Row>)
    ensures |rows| > 0 ==> r == rows[1..]
    ensures |rows| == 0 ==> r == []
  {
    if |rows| == 0 then [] else rows[1..]
  }

  /** One cleaned value per cell, in order. */
  function CleanCells<C>(cells: seq<string>, clean: string -> C): (r: seq<C>)
    ensures |r| == |cells|
    ensures forall k :: 0 <= k < |cells| ==> r[k] == clean(cells[k])
  {
    seq(|cells|, k requires 0 <= k < |cells| => clean(cells[k]))
  }

  /** The rows loop of both table scrapers: rows with at most one data cell are dropped,
      every other row gives one cleaned value per data cell. */
  function CleanRows<C>(rows: seq<Row>, clean: string -> C): (r: seq<seq<C>>)
    ensures |r| == |Kept(rows)|
    ensures forall i :: 0 <= i < |r| ==> r[i] == CleanCells(DataCells(Kept(rows)[i]), clean)
  {
    if |rows| == 0 then []
    else
      var cells := DataCells(rows[0]);
      var rest := CleanRows(rows[1..], clean);
      if |cells| > 1 then
        assert Kept(rows) == [rows[0]] + Kept(rows[1..]);
        [CleanCells(cells, clean)] + rest
      else
        assert Kept(rows) == Kept(rows[1..]);
        rest
  }

  /** Every row CleanRows returns holds one value per data cell of a kept row, and so at
      least two. */
  lemma {:induction false} CleanRowsShape<C>(rows: seq<Row>, clean: string -> C)
    ensures forall i :: 0 <= i < |CleanRows(rows, clean)| ==>
      var row := Kept(rows)[i];
      row in rows && |CleanRows(rows, clean)[i]| == |DataCells(row)| > 1
  {
    var r := CleanRows(rows, clean);
    forall i | 0 <= i < |r|
      ensures Kept(rows)[i] in rows && |r[i]| == |DataCells(Kept(rows)[i])| > 1
    {
      assert Kept(rows)[i] in Kept(rows);
    }
  }

  /** obtener_equipos_historicos_wikipedia: the second wikitable, header row skipped. */
  function HistoricTeams(response: Response<Page>): (r: seq<seq<Option<string>>>)
    ensures response.status != 200 || |response.json.wikitables| < 2 ==> r == []
    ensures response.status == 200 && |response.json.wikitables| >= 2 ==>
      r == CleanRows(Body(response.json.wikitables[1].rows), CleanHistoricCell)
    ensures forall i, k :: 0 <= i < |r| && 0 <= k < |r[i]| && r[i][k].Some? ==> r[i][k].value != NotAvailable
  {
    if response.status == 200 && |response.json.wikitables| > 1 then
      CleanRows(Body(response.json.wikitables[1].rows), CleanHistoricCell)
    else []
  }

  /** obtener_equipos_presentes_wikipedia: the FIRST wikitable, yet only when the page has
      at least two. */
  function PresentTeams(response: Response<Page>): (r: seq<seq<string>>)
    ensures response.status != 200 || |response.json.wikitables| < 2 ==> r == []
    ensures response.status == 200 && |response.json.wikitables| >= 2 ==>
      r == CleanRows(Body(response.json.wikitables[0].rows), CleanPresentCell)
    ensures forall i, k :: 0 <= i < |r| && 0 <= k < |r[i]| ==> '/' !in r[i][k]
  {
    if response.status == 200 && |response.json.wikitables| > 1 then
      CleanRows(Body(response.json.wikitables[0].rows), CleanPresentCell)
    else []
  }
}
