/** obtener_historicos: one output row per driver and season, built from the API's replies. */
module History {
  import opened Results
  import opened Text
  import opened Ergast
  import opened Season
  import opened Standings
  import opened Seqs

  /** The constructor's name as it appears in the standings URL:
      constructor.lower().replace(' ', '_'). */
  function Slug(name: string): (r: string)
    ensures |r| == |name|
    ensures ' ' !in r
    ensures forall i :: 0 <= i < |name| && name[i] == ' ' ==> r[i] == '_'
    ensures forall i :: 0 <= i < |r| ==> !IsUpper(r[i])
    ensures forall i :: 0 <= i < |name| && name[i] != ' ' ==> r[i] == Lower(name[i])
  {
    seq(|name|, i requires 0 <= i < |name| => if name[i] == ' ' then '_' else Lower(name[i]))
  }

  /** The API calls the extraction makes, as the replies they return: seasons of a driver,
      results of a driver in a season, the season's driver standings leader, and the
      season's standings of one constructor (looked up by slug). */
  datatype Api = Api(
    seasons: string -> Response<seq<string>>,
    results: (string, string) -> Response<seq<Race>>,
    driverStandings: string -> Response<seq<DriverStandingsList>>,
    constructorStandings: (string, string) -> Response<seq<ConstructorStandingsList>>)

  /** One row of the output table (columns piloto, temporada, equipo,
      puntos_totales_constructor, the season columns, titulo). */
  datatype SeasonRow = SeasonRow(
    driver: string,
    season: string,
    team: string,
    constructorPoints: real,
    summary: SeasonSummary,
    champion: Option<bool>)

  /** One season of the driver loop in obtener_historicos: None when the results request
      fails. A season with no race results has no main constructor, and building its slug
      raises AttributeError. */
  function SeasonRecord(api: Api, driver: string, season: string): (r: Result<Option<SeasonRow>>)
    ensures api.results(season, driver).status != 200 ==> r == Ok(None)
    ensures api.results(season, driver).status == 200 ==> r != Ok(None)
    ensures r.Ok? && r.value.Some? ==>
      var row := r.value.value;
      var races := api.results(season, driver).json;
      && api.results(season, driver).status == 200
      && row.driver == driver && row.season == season
      && SummarizeSeason(races) == Ok(row.summary)
      && row.summary.mainConstructor == Some(row.team)
      && Champion(api.driverStandings(season), driver) == Ok(row.champion)
      && ConstructorPoints(api.constructorStandings(season, Slug(row.team))) == Ok(row.constructorPoints)
    ensures api.results(season, driver).status == 200 ==>
      var summary := SummarizeSeason(api.results(season, driver).json);
      var champion := Champion(api.driverStandings(season), driver);
      && (summary.Err? ==> r == Err(summary.fault))
      && (summary.Ok? && champion.Err? ==> r == Err(champion.fault))
      && (summary.Ok? && champion.Ok? && summary.value.mainConstructor.None? ==> r == Err(AttributeError))
      && (summary.Ok? && champion.Ok? && summary.value.mainConstructor.Some? ==>
            var points := ConstructorPoints(api.constructorStandings(season, Slug(summary.value.mainConstructor.value)));
            points.Err? ==> r == Err(points.fault))
    ensures
      var races := api.results(season, driver).json;
      && api.results(season, driver).status == 200
      && SummarizeSeason(races).Ok?
      && Champion(api.driverStandings(season), driver).Ok?
      && SummarizeSeason(races).value.mainConstructor.Some?
      && ConstructorPoints(api.constructorStandings(season, Slug(SummarizeSeason(races).value.mainConstructor.value))).Ok?
      ==> r.Ok? && r.value.Some?
  {
    var reply := api.results(season, driver);
    if reply.status != 200 then Ok(None)
    else
      var summary :- SummarizeSeason(reply.json);
      var champion :- Champion(api.driverStandings(season), driver);
      if summary.mainConstructor.None? then Err(AttributeError)
      else
        var team := summary.mainConstructor.value;
        var points :- ConstructorPoints(api.constructorStandings(season, Slug(team)));
        Ok(Some(SeasonRow(driver, season, team, points, summary, champion)))
  }

  /** A season whose races all lack results aborts the extraction, unless an earlier
      lookup has already raised. */
  lemma {:induction false} SeasonWithoutResultsRaises(api: Api, driver: string, season: string)
    requires api.results(season, driver).status == 200
    requires forall race :: race in api.results(season, driver).json ==> !HasResults(race)
    requires Champion(api.driverStandings(season), driver).Ok?
    ensures SeasonRecord(api, driver, season) == Err(AttributeError)
  {
    var races := api.results(season, driver).json;
    assert forall i :: 0 <= i < |races| ==> races[i] in races;
    MainConstructorIsFirst(races);
  }

  // ---------------------------------------------------------------------------
  // The two nested loops

  /** Runs `part` on every x in order and joins what each returns, as appending to one
      list inside a loop does; the first part that raises aborts the whole loop. */
  function Concat<X, Y>(xs: seq<X>, part: X -> Result<seq<Y>>): (r: Result<seq<Y>>)
    ensures r.Err? <==> exists i :: 0 <= i < |xs| && part(xs[i]).Err?
    ensures r.Err? ==> exists i ::
      && 0 <= i < |xs| && part(xs[i]) == Err(r.fault)
      && forall j :: 0 <= j < i ==> part(xs[j]).Ok?
    ensures r.Ok? ==> forall i, y :: 0 <= i < |xs| && part(xs[i]).Ok? && y in part(xs[i]).value ==> y in r.value
    ensures r.Ok? ==> forall y :: y in r.value ==> exists i :: 0 <= i < |xs| && part(xs[i]).Ok? && y in part(xs[i]).value
    ensures (forall i :: 0 <= i < |xs| ==> part(xs[i]) == Ok([])) ==> r == Ok([])
    ensures r.Ok? && (forall i :: 0 <= i < |xs| && part(xs[i]).Ok? ==> |part(xs[i]).value| <= 1) ==> |r.value| <= |xs|
    decreases |xs|
  {
    if |xs| == 0 then Ok([])
    else
      var tail := xs[1..];
      assert forall i :: 0 <= i < |tail| ==> tail[i] == xs[i + 1];
      var first :- part(xs[0]);
      match Concat(tail, part)
      case Err(e) =>
        var k :| 0 <= k < |tail| && part(tail[k]) == Err(e) && forall j :: 0 <= j < k ==> part(tail[j]).Ok?;
        assert part(xs[k + 1]) == Err(e);
        Err(e)
      case Ok(rest) =>
        forall y | y in first + rest
          ensures exists i :: 0 <= i < |xs| && part(xs[i]).Ok? && y in part(xs[i]).value
        {
          if y !in first {
            var k :| 0 <= k < |tail| && part(tail[k]).Ok? && y in part(tail[k]).value;
            assert part(xs[k + 1]) == part(tail[k]);
          }
        }
        Ok(first + rest)
  }

  /** Joining the parts of a + b gives the parts of a followed by those of b; the parts
      of a are run, and may raise, first. */
  lemma {:induction false} ConcatAppend<X, Y>(a: seq<X>, b: seq<X>, part: X -> Result<seq<Y>>)
    ensures Concat(a + b, part) ==
      if Concat(a, part).Err? then Concat(a, part)
      else if Concat(b, part).Err? then Concat(b, part)
      else Ok(Concat(a, part).value + Concat(b, part).value)
    decreases |a|
  {
    if |a| == 0 {
      assert a + b == b;
      assert Concat(b, part).Ok? ==> [] + Concat(b, part).value == Concat(b, part).value;
    } else {
      assert (a + b)[0] == a[0];
      assert (a + b)[1..] == a[1..] + b;
      ConcatAppend(a[1..], b, part);
      if part(a[0]).Ok? && Concat(a[1..], part).Ok? && Concat(b, part).Ok? {
        var f := part(a[0]).value;
        ConcatAssoc(f, Concat(a[1..], part).value, Concat(b, part).value);
      }
    }
  }

  /** A loop over one item joins exactly what that item's part returns. */
  lemma ConcatOne<X, Y>(x: X, part: X -> Result<seq<Y>>)
    ensures Concat([x], part) == part(x)
  {
    assert [x][1..] == [];
    assert part(x).Ok? ==> part(x).value + [] == part(x).value;
  }

  /** One season's contribution: its row, nothing, or the error it raises. */
  function SeasonRows(api: Api, driver: string, season: string): (r: Result<seq<SeasonRow>>)
    ensures r.Err? <==> SeasonRecord(api, driver, season).Err?
    ensures r.Err? ==> SeasonRecord(api, driver, season) == Err(r.fault)
    ensures r.Ok? ==> r.value == (if SeasonRecord(api, driver, season).value.Some? then [SeasonRecord(api, driver, season).value.value] else [])
    ensures r.Ok? ==> |r.value| <= 1
    ensures r.Ok? ==> forall row :: row in r.value ==> row.driver == driver && row.season == season
  {
    match SeasonRecord(api, driver, season)
    case Err(e) => Err(e)
    case Ok(None) => Ok([])
    case Ok(Some(row)) => Ok([row])
  }

  /** The seasons loop of one driver: a row for every season whose results request
      succeeds, in season order, or the first error a season raises. */
  function DriverRows(api: Api, driver: string, seasons: seq<string>): (r: Result<seq<SeasonRow>>)
    ensures r.Err? <==> exists i :: 0 <= i < |seasons| && SeasonRecord(api, driver, seasons[i]).Err?
    ensures r.Ok? ==> forall i ::
      (&& 0 <= i < |seasons|
       && SeasonRecord(api, driver, seasons[i]).Ok?
       && SeasonRecord(api, driver, seasons[i]).value.Some?)
      ==> SeasonRecord(api, driver, seasons[i]).value.value in r.value
    ensures r.Ok? ==> forall row :: row in r.value ==>
      exists i :: 0 <= i < |seasons| && SeasonRecord(api, driver, seasons[i]) == Ok(Some(row))
    ensures r.Ok? ==> forall row :: row in r.value ==> row.driver == driver && row.season in seasons
    ensures r.Ok? ==> |r.value| <= |seasons|
  {
    var part := SeasonPart(api, driver);
    var r := Concat(seasons, part);
    assert forall i :: 0 <= i < |seasons| ==> part(seasons[i]) == SeasonRows(api, driver, seasons[i]);
    assert forall i :: 0 <= i < |seasons| && part(seasons[i]).Ok? ==> |part(seasons[i]).value| <= 1;
    assert r.Ok? ==> forall row :: row in r.value ==>
      && (exists i :: 0 <= i < |seasons| && SeasonRecord(api, driver, seasons[i]) == Ok(Some(row)))
      && row.driver == driver && row.season in seasons
    by {
      if r.Ok? {
        forall row | row in r.value
          ensures exists i :: 0 <= i < |seasons| && SeasonRecord(api, driver, seasons[i]) == Ok(Some(row))
          ensures row.driver == driver && row.season in seasons
        {
          var i :| 0 <= i < |seasons| && part(seasons[i]).Ok? && row in part(seasons[i]).value;
          assert row in SeasonRows(api, driver, seasons[i]).value;
          assert SeasonRecord(api, driver, seasons[i]) == Ok(Some(row));
          assert seasons[i] in seasons;
        }
      }
    }
    r
  }

  /** The seasons loop as a function of one season, the part DriverRows joins. */
  function SeasonPart(api: Api, driver: string): string -> Result<seq<SeasonRow>>
  {
    (s: string) => SeasonRows(api, driver, s)
  }

  /** The seasons loop over a + b gives the rows of a, then those of b; a season of a
      that raises stops the loop before any season of b is requested. */
  lemma DriverRowsAppend(api: Api, driver: string, a: seq<string>, b: seq<string>)
    ensures DriverRows(api, driver, a + b) ==
      if DriverRows(api, driver, a).Err? then DriverRows(api, driver, a)
      else if DriverRows(api, driver, b).Err? then DriverRows(api, driver, b)
      else Ok(DriverRows(api, driver, a).value + DriverRows(api, driver, b).value)
  {
    ConcatAppend(a, b, SeasonPart(api, driver));
  }

  /** The seasons loop over one season gives that season's row, nothing, or its error. */
  lemma DriverRowsOne(api: Api, driver: string, season: string)
    ensures DriverRows(api, driver, [season]) == SeasonRows(api, driver, season)
  {
    ConcatOne(season, SeasonPart(api, driver));
  }

  /** The rows of one driver in the drivers loop: nothing when the seasons request fails. */
  function DriverTable(api: Api, driver: string): (r: Result<seq<SeasonRow>>)
    ensures api.seasons(driver).status != 200 ==> r == Ok([])
    ensures r.Ok? ==> forall row :: row in r.value ==> row.driver == driver
  {
    var reply := api.seasons(driver);
    if reply.status == 200 then DriverRows(api, driver, reply.json) else Ok([])
  }

  /** The whole table of obtener_historicos: the rows of every driver in driver order, or
      the first error one of them raises. */
  function HistoricRows(api: Api, drivers: seq<string>): (r: Result<seq<SeasonRow>>)
    ensures r.Err? <==> exists i :: 0 <= i < |drivers| && DriverTable(api, drivers[i]).Err?
    ensures r.Ok? ==> forall i, row ::
      0 <= i < |drivers| && DriverTable(api, drivers[i]).Ok? && row in DriverTable(api, drivers[i]).value
      ==> row in r.value
    ensures r.Ok? ==> forall row :: row in r.value ==>
      exists i :: 0 <= i < |drivers| && DriverTable(api, drivers[i]).Ok? && row in DriverTable(api, drivers[i]).value
    ensures r.Ok? ==> forall row :: row in r.value ==> row.driver in drivers
    ensures r.Ok? ==> forall row :: row in r.value ==> api.seasons(row.driver).status == 200
    ensures r.Ok? && (forall d :: d in drivers ==> api.seasons(d).status != 200) ==> r.value == []
  {
    var part := DriverPart(api);
    var r := Concat(drivers, part);
    assert forall i :: 0 <= i < |drivers| ==> part(drivers[i]) == DriverTable(api, drivers[i]);
    assert r.Ok? ==> forall row :: row in r.value ==>
      && (exists i :: 0 <= i < |drivers| && DriverTable(api, drivers[i]).Ok? && row in DriverTable(api, drivers[i]).value)
      && row.driver in drivers
      && api.seasons(row.driver).status == 200
    by {
      if r.Ok? {
        forall row | row in r.value
          ensures exists i :: 0 <= i < |drivers| && DriverTable(api, drivers[i]).Ok? && row in DriverTable(api, drivers[i]).value
          ensures row.driver in drivers
          ensures api.seasons(row.driver).status == 200
        {
          var i :| 0 <= i < |drivers| && part(drivers[i]).Ok? && row in part(drivers[i]).value;
          assert row in DriverTable(api, drivers[i]).value;
          assert row.driver == drivers[i];
        }
      }
    }
    assert r.Ok? && (forall d :: d in drivers ==> api.seasons(d).status != 200) ==> r.value == [] by {
      if r.Ok? && (forall d :: d in drivers ==> api.seasons(d).status != 200) {
        assert forall i :: 0 <= i < |drivers| ==> part(drivers[i]) == Ok([]);
      }
    }
    r
  }

  /** The drivers loop as a function of one driver, the part HistoricRows joins. */
  function DriverPart(api: Api): string -> Result<seq<SeasonRow>>
  {
    (d: string) => DriverTable(api, d)
  }

  /** The drivers loop over a + b gives the rows of a, then those of b; a driver of a
      that raises stops the loop before any driver of b is requested. */
  lemma HistoricRowsAppend(api: Api, a: seq<string>, b: seq<string>)
    ensures HistoricRows(api, a + b) ==
      if HistoricRows(api, a).Err? then HistoricRows(api, a)
      else if HistoricRows(api, b).Err? then HistoricRows(api, b)
      else Ok(HistoricRows(api, a).value + HistoricRows(api, b).value)
  {
    ConcatAppend(a, b, DriverPart(api));
  }

  /** The drivers loop over one driver gives that driver's rows or error. */
  lemma HistoricRowsOne(api: Api, driver: string)
    ensures HistoricRows(api, [driver]) == DriverTable(api, driver)
  {
    ConcatOne(driver, DriverPart(api));
  }
}
