/** formatear_datos_historicos applied to the rows of the historic table. */
module Formatting {
  import opened Results
  import opened Names
  import History

  /** formatear_datos_historicos: the map is built first, then every row's driver is
      resolved; nothing else in a row changes. */
  function RenameDrivers(rows: seq<History.SeasonRow>, names: seq<string>): (r: Result<seq<History.SeasonRow>>)
    ensures r.Ok? <==> NameMap(names).Ok?
    ensures r.Err? ==> r == Err(NameMap(names).fault) && r.fault == IndexError
    ensures r.Ok? ==> |r.value| == |rows| && forall i :: 0 <= i < |rows| ==>
      r.value[i] == rows[i].(driver := Resolve(NameMap(names).value, rows[i].driver))
  {
    NameMapRaises(names);
    var m :- NameMap(names);
    Ok(seq(|rows|, i requires 0 <= i < |rows| => rows[i].(driver := Resolve(m, rows[i].driver))))
  }
}
