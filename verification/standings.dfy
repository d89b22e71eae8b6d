/** The two standings lookups of obtener_historicos: champion check and constructor points. */
module Standings {
  import opened Results
  import opened Ergast

  /** obtener_campeon: Some(true) when the leader of the first standings list is the driver,
      Some(false) when it is someone else, None (Python's implicit return) when the request
      failed or there are no standings lists. A list without entries raises IndexError. */
  function Champion(response: Response<seq<DriverStandingsList>>, driver: string): (r: Result<Option<bool>>)
    ensures r == Ok(Some(true)) <==>
      && response.status == 200
      && |response.json| > 0
      && |response.json[0].driverStandings| > 0
      && response.json[0].driverStandings[0].driverId == driver
    ensures r == Ok(None) <==> response.status != 200 || |response.json| == 0
    ensures r.Err? <==>
      response.status == 200 && |response.json| > 0 && |response.json[0].driverStandings| == 0
    ensures r.Err? ==> r.fault == IndexError
  {
    if response.status != 200 || |response.json| == 0 then Ok(None)
    else
      var leaders := response.json[0].driverStandings;
      if |leaders| == 0 then Err(IndexError)
      else Ok(Some(leaders[0].driverId == driver))
  }

  /** obtener_puntos_constructor: the points of the first entry of the first standings list,
      and 0 when the request failed or there are no standings lists. */
  function ConstructorPoints(response: Response<seq<ConstructorStandingsList>>): (r: Result<real>)
    ensures response.status != 200 || |response.json| == 0 ==> r == Ok(0.0)
    ensures r.Err? <==>
      response.status == 200 && |response.json| > 0 && |response.json[0].constructorStandings| == 0
    ensures r.Err? ==> r.fault == IndexError
    ensures
      && response.status == 200
      && |response.json| > 0
      && |response.json[0].constructorStandings| > 0
      ==> r == Ok(response.json[0].constructorStandings[0].points)
  {
    if response.status != 200 || |response.json| == 0 then Ok(0.0)
    else
      var entries := response.json[0].constructorStandings;
      if |entries| == 0 then Err(IndexError)
      else Ok(entries[0].points)
  }
}
