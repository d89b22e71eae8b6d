# Formula 1 history extraction: the data-shaping core

This project models the pure data shaping of the Formula 1 extraction pipeline
(`src/soporte_funciones_extraccion.py`). HTTP replies, the decoded Ergast JSON
and the encyclopedia tables become plain Dafny values. The model covers:

- **The per-season race fold** of `obtener_historicos`. It counts wins, podiums,
  poles and retirements, sums points, takes three averages and picks the main
  constructor. It then builds the constructor slug and looks up the standings.
  Finally it assembles one row per driver and season.
- **The standings decisions** of `obtener_campeon` and `obtener_puntos_constructor`.
- **The driver-name mapping** of `formatear_datos_historicos`.
- **Row selection and cell cleaning** in `obtener_equipos_historicos_wikipedia`
  and `obtener_equipos_presentes_wikipedia`. This includes an exact model of
  `re.sub(r"\[.*?\]", "", s)`.

The Python exceptions that can arise from the values of the decoded data are
modelled as `Results.Err(fault)`. They abort the whole computation as in the
source:

- `int()` on a non-numeral raises `ValueError`.
- `[0]` on an empty standings list raises `IndexError`.
- `split()[-1]` on a blank name raises `IndexError`.
- `None.lower()` raises `AttributeError`.

A season in which no race has results has no main constructor. Building its
slug then raises `AttributeError`, so the whole extraction stops
(`History.SeasonWithoutResultsRaises`). Because of this, the guard on
`total_carreras > 0` for the points average never protects a row that is
actually produced with zero races. The model keeps this behaviour as the code
has it.

An HTTP reply is `Ergast.Response(status, json)`, and the body is read only when
the status is 200. `History.Api` holds the four Ergast queries the extraction
makes, as functions from their URL parameters to replies. The constructor
standings are therefore looked up under the slug the code computes.

Modules: `Results` (outcomes), `Seqs` (a sequence fact), `Text` (Python string operations), `Ergast`
(decoded payloads), `Season` (race fold), `Standings`, `History` (rows),
`Names` and `Formatting` (name mapping), `Wiki` (table cleaning).

## Model

| member | source | states |
|---|---|---|
| Text.ParseNat | src/soporte_funciones_extraccion.py:80 | `int()` of a position or grid succeeds exactly when the text is a non-empty string of digits |
| Text.ParseShow | src/soporte_funciones_extraccion.py:80-81 | reading back the decimal numeral of n gives n, so every numeral the API can send is read as its own value |
| Text.LastSegment | src/soporte_funciones_extraccion.py:196 | `split("_")[-1]` is the longest suffix of the id without `_`: it ends the id and is preceded by `_` unless it is the whole id |
| Text.LastWord | src/soporte_funciones_extraccion.py:195 | `split()[-1]` exists exactly when the name holds a non-whitespace character; it is then the non-empty whitespace-free word of the name that starts the name or follows whitespace and is followed only by whitespace |
| Text.Remove | src/soporte_funciones_extraccion.py:353 | `replace("/", "")` leaves no `/`, only deletes, and keeps every other character as often as it occurs (equal multisets apart from `/`) |
| Text.RemoveAbsent | src/soporte_funciones_extraccion.py:353 | deleting a character that does not occur leaves the text unchanged |
| Season.Decode | src/soporte_funciones_extraccion.py:80-90 | a result is read exactly when position and grid are numerals; an unreadable position raises its ValueError before the grid is looked at, then an unreadable grid raises its own; a win (text "1") is always a podium (number at most 3); a missing grid reads 0 and is never a pole; "R" marks a retirement |
| Season.Played | src/soporte_funciones_extraccion.py:77-79 | only races with a non-empty Results list contribute, each through Results[0]; there is none exactly when no race has results |
| Season.PlayedAppend | src/soporte_funciones_extraccion.py:77-79 | the counted results of two race lists joined are those of the first followed by those of the second, so every race with results contributes, in race order |
| Season.Step | src/soporte_funciones_extraccion.py:78-94 | one pass of the loop body agrees with reading that single race as a season: it raises iff decoding the race's played results raises, with the same error; otherwise it extends the accumulators by exactly that race's wins, podiums, poles, retirements, points, grid and position, and sets the team only if none is set yet; a race without results leaves them as they are |
| Season.DecodeAll | src/soporte_funciones_extraccion.py:77-81 | the counted results decode in order, and the season fails exactly when one of them cannot be read, with the ValueError of the first unreadable result |
| Season.FoldRaces | src/soporte_funciones_extraccion.py:68-94 | the loop, one `Step` per race, adds each counted race's flags, points, positions and grid to the accumulators; the constructor is set once and never overwritten |
| Season.PointsPerRace | src/soporte_funciones_extraccion.py:97 | the points average times the race total gives back the points, and it is 0 without races |
| Season.SummarizeSeason | src/soporte_funciones_extraccion.py:68-97 | the race total counts every race; the counts, points and position averages come only from counted races; the main constructor is that of the first counted race; the points average is taken over all races; it raises, always a ValueError, exactly when decoding the counted results does |
| Season.SeasonCountBounds | src/soporte_funciones_extraccion.py:80-89 | wins ≤ podiums ≤ races with results ≤ race total; poles and retirements ≤ races with results |
| Season.MainConstructorIsFirst | src/soporte_funciones_extraccion.py:76-94 | the main constructor is absent iff no race has results, and otherwise belongs to the first race that has results |
| Season.MeanWithin | src/soporte_funciones_extraccion.py:95-96 | an average of positions lies between any lower and upper bound of the averaged positions |
| Season.MeanPositionWithin | src/soporte_funciones_extraccion.py:91-95 | when at least one race has results and every counted race finished between positions lo and hi, so does the mean race position |
| Season.ResultlessRaceOnlyCounts | src/soporte_funciones_extraccion.py:75-97 | appending a race without results raises the race total by one, lowers the points average to match, and changes nothing else |
| Standings.Champion | src/soporte_funciones_extraccion.py:142-150 | True iff the leader of the first standings list is the driver; no answer on a failed request or empty standings; an empty leader list raises |
| Standings.ConstructorPoints | src/soporte_funciones_extraccion.py:168-174 | 0 on a failed request or empty standings; on a 200 reply whose first list has entries, exactly the first entry's points; an empty entry list raises IndexError |
| History.Slug | src/soporte_funciones_extraccion.py:102 | the slug has the name's length, no spaces and no upper-case letters; every space becomes `_` and every other character is the lower-cased original |
| History.SeasonRecord | src/soporte_funciones_extraccion.py:64-120 | a failed results request skips the season; a 200 reply gives a row or raises, and gives a row whenever summary, champion lookup, main constructor and points lookup all succeed; the exception raised is that of the first step that fails, in source order: the summary's ValueError, the champion lookup's IndexError, AttributeError for a season without a main constructor, then the points lookup's IndexError; a row carries the season summary and the champion answer, plus the constructor points looked up under its team's slug |
| History.SeasonWithoutResultsRaises | src/soporte_funciones_extraccion.py:93-102 | a season fetched with no race results raises AttributeError once the champion lookup has succeeded |
| History.Concat | src/soporte_funciones_extraccion.py:55-120 | appending inside a loop: the result raises iff some pass raises, with the error of the first pass that does; otherwise it holds every item of every pass and nothing else, and no more items than passes when each pass gives at most one |
| History.ConcatAppend | src/soporte_funciones_extraccion.py:55-120 | the items of a loop over two lists joined are those of the first list followed by those of the second, and the first list's passes raise first |
| History.DriverRows | src/soporte_funciones_extraccion.py:62-120 | the seasons loop raises iff some season raises; otherwise every season's row is present, every row is the row some season produced (so it names the driver and one of its seasons), and there are no more rows than seasons |
| History.HistoricRows | src/soporte_funciones_extraccion.py:55-122 | the drivers loop raises iff some driver's rows raise; otherwise every driver's rows are present, every row is a row some driver's loop produced, every row names a requested driver whose seasons request succeeded, and the table is empty when every seasons request fails |
| History.ConcatOne | src/soporte_funciones_extraccion.py:55-120 | a loop over a single item gives exactly what that item's pass gives |
| History.DriverRowsAppend | src/soporte_funciones_extraccion.py:62-120 | the seasons loop over two season lists joined gives the rows of the first list, in order, followed by those of the second, and a season of the first list that raises wins over the second |
| History.DriverRowsOne | src/soporte_funciones_extraccion.py:62-120 | the seasons loop over one season gives exactly that season's row, nothing when its results request fails, or its error; with DriverRowsAppend this fixes the rows and their order for every season list |
| History.HistoricRowsAppend | src/soporte_funciones_extraccion.py:55-122 | the drivers loop over two driver lists joined gives the rows of the first list, in order, followed by those of the second, and a driver of the first list that raises wins over the second |
| History.HistoricRowsOne | src/soporte_funciones_extraccion.py:55-122 | the drivers loop over one driver gives exactly that driver's rows, none when its seasons request fails, or its error; with HistoricRowsAppend this fixes the rows and their order for every driver list |
| Names.SurnameShape | src/soporte_funciones_extraccion.py:195 | a surname exists iff the name is not blank; it is the lower-cased last word, non-empty, without whitespace or capitals |
| Names.KeyedBy | src/soporte_funciones_extraccion.py:195 | the comprehension holds a key for every name, or raises on a name whose key raises |
| Names.KeyedByLastWins | src/soporte_funciones_extraccion.py:195 | when several names share a surname, the later list entry is the one stored |
| Names.KeyedByKeys | src/soporte_funciones_extraccion.py:195 | every key of the map is the surname of some listed name |
| Names.NameMapRaises | src/soporte_funciones_extraccion.py:195 | building the map raises IndexError exactly when some name is blank |
| Names.ResolveUnmatched | src/soporte_funciones_extraccion.py:193-196 | an id whose last `_` segment is no listed name's surname stays unchanged |
| Names.ResolveMatched | src/soporte_funciones_extraccion.py:192-196 | an id becomes the last listed full name whose lower-cased surname equals the id's last `_` segment |
| Formatting.RenameDrivers | src/soporte_funciones_extraccion.py:195-197 | only the driver column changes, row by row; the call raises exactly when the map cannot be built, and then with the map's IndexError |
| Wiki.CloseAt | src/soporte_funciones_extraccion.py:282 | the non-greedy match ends at the first `]`, with no newline before it; it fails only when a newline comes before every later `]` |
| Wiki.CloseAtFirst | src/soporte_funciones_extraccion.py:282 | whenever a `]` is preceded by neither `]` nor newline since the `[`, the match ends exactly there |
| Wiki.StripReferences | src/soporte_funciones_extraccion.py:290 | removing references only deletes characters, and text without `[` is unchanged |
| Wiki.StripKeepsPlainPrefix | src/soporte_funciones_extraccion.py:290 | text before the first `[` is kept as it is, ahead of the cleaned rest |
| Wiki.StripOneReference | src/soporte_funciones_extraccion.py:282-290 | a `[`, the text up to the nearest `]` and that `]` are removed and nothing after them, when no newline comes first |
| Wiki.StripLeavesNoReference | src/soporte_funciones_extraccion.py:282-290 | in a single-line cell no `[` is followed anywhere later by a `]` after removal |
| Wiki.StripLeavesNoLineReference | src/soporte_funciones_extraccion.py:282-290 | in any text, after removal a newline lies between every `[` and every later `]`, so nothing the pattern could match survives |
| Wiki.StripWithoutReference | src/soporte_funciones_extraccion.py:290 | text in which a newline lies between every `[` and every later `]` is left as it is |
| Wiki.StripIdempotent | src/soporte_funciones_extraccion.py:290 | removing references a second time changes nothing, for any text |
| Wiki.CleanHistoricCell | src/soporte_funciones_extraccion.py:290-293 | a cell becomes missing exactly when its cleaned text is "n/a"; otherwise it is a subsequence of the raw text |
| Wiki.CleanPresentCell | src/soporte_funciones_extraccion.py:352-356 | a cleaned cell never contains `/`; it is the no-predecessor text iff the cleaned text was an em dash (or already that text); any other cleaned text is returned unchanged, a subsequence of the raw text |
| Wiki.DataCells | src/soporte_funciones_extraccion.py:286 | a text is among a row's data cells iff the row has a `td` cell with that text; header cells give nothing |
| Wiki.DataCellsAppend | src/soporte_funciones_extraccion.py:286 | the data cells of two runs of cells joined are those of the first run followed by those of the second, so document order is kept |
| Wiki.Kept | src/soporte_funciones_extraccion.py:288 | exactly the rows with more than one data cell are kept |
| Wiki.KeptAppend | src/soporte_funciones_extraccion.py:285-294 | the rows kept from two lists joined are those kept from the first followed by those kept from the second, so order and duplicates are kept |
| Wiki.CleanRows | src/soporte_funciones_extraccion.py:285-294 | one output row per kept row, in order, each the cleaned values of its data cells |
| Wiki.CleanRowsShape | src/soporte_funciones_extraccion.py:288-294 | every output row comes from an input row and has one value per data cell, so at least two |
| Wiki.HistoricTeams | src/soporte_funciones_extraccion.py:279-294 | rows come from the second wikitable after its header row, and only on a 200 reply with at least two wikitables; no kept cell reads "n/a" |
| Wiki.PresentTeams | src/soporte_funciones_extraccion.py:341-357 | rows come from the first wikitable after its header row, but only when at least two wikitables exist; no cell contains `/` |

## Left out

- HTTP requests (`requests.get`): a reply is a status and an already-decoded body, and the four Ergast queries are functions in `History.Api`.
- `obtener_historial_escuderias`: an authenticated fetch that only copies three fields per team into a table.
- HTML parsing with BeautifulSoup: a page is its sequence of "wikitable" tables, and a cell's text is what `get_text(strip=True)` returns. Cells of nested tables are not modelled.
- The general regular-expression engine: only the one pattern `\[.*?\]` is modelled, by hand.
- The Selenium press-release scraper `obtener_datos_audiencia_liberty_media`: browser automation.
- `round(..., 2)` and `float()`: the model uses exact reals, and points arrive already converted.
- `KeyError` on an absent JSON key (`["Seasons"]`, `season["season"]`, `resultado["position"]`, `["points"]`, `["Constructor"]["name"]`, `["Driver"]["driverId"]`, `['points']`): the decoded Ergast datatypes make every such field present, so this error cannot arise in the model. Only the keys read with `.get` or tested with `in` may be absent.
- pandas DataFrame construction, including its checks of column counts, and `tqdm` progress output: library wrappers.
- `src/soporte_funciones_creacion_bbdd.py`: database connection, table creation and row insertion over psycopg2. Two mismatches there are not modelled. The top-driver insert reads columns `nombre` and `cantidad_podiums`, which the extraction never produces (src/soporte_funciones_creacion_bbdd.py:161-162). The current-teams insert names a column `escuderias_antecedentes` that the table does not define (src/soporte_funciones_creacion_bbdd.py:111, :210-228).
- Text.ParseNat: accepts only non-empty ASCII digit strings. Python's `int()` also accepts surrounding whitespace, a sign, underscores and non-ASCII digits. The API sends plain numerals.
- Text.LowerAll: lower-cases ASCII letters only. Python's `str.lower()` covers all of Unicode.
