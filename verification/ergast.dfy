/** The Ergast API payloads the extraction code reads, already decoded from JSON. */
module Ergast {
  import opened Results

  /** An HTTP reply: the JSON body is only read when the status is 200. */
  datatype Response<T> = Response(status: int, json: T)

  /** One entry of a race's "Results" list, keeping the fields the fold reads. */
  datatype RaceResult = RaceResult(
    position: string,              // "position", a numeral such as "1"
    grid: Option<string>,          // "grid", which may be absent
    positionText: Option<string>,  // "positionText", "R" for a retirement; may be absent
    points: real,                  // "points", already converted from its decimal text
    constructorName: string)       // "Constructor" -> "name"

  /** One entry of "RaceTable" -> "Races"; None when the "Results" key is absent. */
  datatype Race = Race(results: Option<seq<RaceResult>>)

  /** The race counts towards the statistics only when it has a non-empty "Results" list. */
  predicate HasResults(race: Race) {
    race.results.Some? && |race.results.value| > 0
  }

  /** Results[0], the driver's own entry. */
  function FirstResult(race: Race): RaceResult
    requires HasResults(race)
  {
    race.results.value[0]
  }

  datatype DriverStanding = DriverStanding(driverId: string)

  /** One entry of "StandingsTable" -> "StandingsLists" of a driver-standings query. */
  datatype DriverStandingsList = DriverStandingsList(driverStandings: seq<DriverStanding>)

  datatype ConstructorStanding = ConstructorStanding(points: real)

  /** One entry of "StandingsTable" -> "StandingsLists" of a constructor-standings query. */
  datatype ConstructorStandingsList = ConstructorStandingsList(constructorStandings: seq<ConstructorStanding>)
}
