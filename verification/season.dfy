/** The per-season race fold of obtener_historicos: one driver, one season, one summary. */
module Season {
  import opened Results
  import opened Text
  import opened Ergast
  import opened Seqs

  /** The first result of one race after its integers have been read. */
  datatype Finish = Finish(
    position: nat,
    grid: nat,
    win: bool,
    podium: bool,
    pole: bool,
    retired: bool,
    points: real,
    team: string)

  /** The relations between a finish's numbers and its flags. */
  predicate Consistent(f: Finish) {
    && f.podium == (f.position <= 3)
    && (f.win ==> f.position == 1)
    && f.pole == (f.grid == 1)
  }

  /** int(resultado.get("grid", 0)): a missing grid reads as 0. */
  function Grid(x: RaceResult): Option<nat> {
    if x.grid.None? then Some(0) else ParseNat(x.grid.value)
  }

  /** Reads one race's first result. A win is decided on the position TEXT being "1",
      a podium on the position NUMBER being at most 3. */
  function Decode(x: RaceResult): (r: Result<Finish>)
    ensures r.Ok? <==> ParseNat(x.position).Some? && Grid(x).Some?
    ensures r.Err? ==> r.fault.ValueError?
    ensures ParseNat(x.position).None? ==> r == Err(ValueError(x.position))
    ensures ParseNat(x.position).Some? && Grid(x).None? ==> x.grid.Some? && r == Err(ValueError(x.grid.value))
    ensures r.Ok? ==> Consistent(r.value)
    ensures r.Ok? ==> (r.value.win <==> x.position == "1")
    ensures r.Ok? ==> (r.value.retired <==> x.positionText == Some("R"))
    ensures r.Ok? && x.grid.None? ==> r.value.grid == 0 && !r.value.pole
    ensures r.Ok? ==> Some(r.value.position) == ParseNat(x.position) && Some(r.value.grid) == Grid(x)
    ensures r.Ok? ==> r.value.points == x.points && r.value.team == x.constructorName
  {
    match ParseNat(x.position)
    case None => Err(ValueError(x.position))
    case Some(position) =>
      match Grid(x)
      case None => Err(ValueError(x.grid.value))
      case Some(grid) =>
        assert x.position == "1" ==> DigitsValue(x.position) == 10 * DigitsValue([]) + 1;
        Ok(Finish(position, grid, x.position == "1", position <= 3, grid == 1,
                  x.positionText == Some("R"), x.points, x.constructorName))
  }

  // ---------------------------------------------------------------------------
  // Reference definitions: which results count, and what they add up to

  /** Results[0] of every race that has results, in race order. */
  function Played(races: seq<Race>): (p: seq<RaceResult>)
    ensures |p| <= |races|
    ensures |p| == 0 <==> forall i :: 0 <= i < |races| ==> !HasResults(races[i])
    ensures forall x :: x in p ==> exists race :: race in races && HasResults(race) && x == FirstResult(race)
  {
    if |races| == 0 then []
    else
      var rest := Played(races[1..]);
      assert forall race :: race in races[1..] ==> race in races;
      (if HasResults(races[0]) then [FirstResult(races[0])] else []) + rest
  }

  /** The counted results of a + b are those of a followed by those of b: every race with
      results contributes, in race order. */
  lemma {:induction false} PlayedAppend(a: seq<Race>, b: seq<Race>)
    ensures Played(a + b) == Played(a) + Played(b)
    decreases |a|
  {
    if |a| == 0 {
      assert a + b == b;
    } else {
      var ab := a + b;
      assert ab[0] == a[0] && ab[1..] == a[1..] + b;
      var head := if HasResults(a[0]) then [FirstResult(a[0])] else [];
      assert Played(ab) == head + Played(a[1..] + b);
      assert Played(a) == head + Played(a[1..]);
      PlayedAppend(a[1..], b);
      ConcatAssoc(head, Played(a[1..]), Played(b));
    }
  }

  /** Decodes every result in order; the first one that cannot be read raises. */
  function DecodeAll(xs: seq<RaceResult>): (r: Result<seq<Finish>>)
    ensures r.Ok? <==> forall i :: 0 <= i < |xs| ==> Decode(xs[i]).Ok?
    ensures r.Ok? ==> |r.value| == |xs| && forall i :: 0 <= i < |xs| ==> Decode(xs[i]) == Ok(r.value[i])
    ensures r.Err? ==> exists i ::
      && 0 <= i < |xs| && Decode(xs[i]) == Err(r.fault)
      && forall j :: 0 <= j < i ==> Decode(xs[j]).Ok?
    ensures r.Err? ==> r.fault.ValueError?
  {
    if |xs| == 0 then Ok([])
    else
      var f :- Decode(xs[0]);
      var tail := xs[1..];
      assert forall i :: 0 <= i < |tail| ==> tail[i] == xs[i + 1];
      var fs :- DecodeAll(tail);
      Ok([f] + fs)
  }

  /** The decoded finishes of a season, or the error that aborts it. */
  function Finishes(races: seq<Race>): Result<seq<Finish>> {
    DecodeAll(Played(races))
  }

  predicate IsWin(f: Finish) { f.win }
  predicate IsPodium(f: Finish) { f.podium }
  predicate IsPole(f: Finish) { f.pole }
  predicate IsRetired(f: Finish) { f.retired }

  function Count(fs: seq<Finish>, p: Finish -> bool): (n: nat)
    ensures n <= |fs|
  {
    if |fs| == 0 then 0 else (if p(fs[0]) then 1 else 0) + Count(fs[1..], p)
  }

  function TotalPoints(fs: seq<Finish>): real {
    if |fs| == 0 then 0.0 else fs[0].points + TotalPoints(fs[1..])
  }

  function Positions(fs: seq<Finish>): (r: seq<nat>)
    ensures |r| == |fs|
  {
    if |fs| == 0 then [] else [fs[0].position] + Positions(fs[1..])
  }

  function Grids(fs: seq<Finish>): (r: seq<nat>)
    ensures |r| == |fs|
  {
    if |fs| == 0 then [] else [fs[0].grid] + Grids(fs[1..])
  }

  function Sum(xs: seq<nat>): nat {
    if |xs| == 0 then 0 else xs[0] + Sum(xs[1..])
  }

  /** sum(xs) / len(xs) if xs else 0, in exact arithmetic. */
  function Mean(xs: seq<nat>): real {
    if |xs| == 0 then 0.0 else Sum(xs) as real / |xs| as real
  }

  // ---------------------------------------------------------------------------
  // The fold, as the source loop runs it

  /** The accumulators of the races loop. */
  datatype Tally = Tally(
    wins: nat,
    podiums: nat,
    points: real,
    retired: nat,
    poles: nat,
    grids: seq<nat>,
    positions: seq<nat>,
    team: Option<string>)
  {
    /** The updates of one counted race. The constructor is only set while still unset. */
    function Add(f: Finish): Tally {
      Tally(
        wins + (if f.win then 1 else 0),
        podiums + (if f.podium then 1 else 0),
        points + f.points,
        retired + (if f.retired then 1 else 0),
        poles + (if f.pole then 1 else 0),
        grids + [f.grid],
        positions + [f.position],
        if team.None? then Some(f.team) else team)
    }
  }

  const Start: Tally := Tally(0, 0, 0.0, 0, 0, [], [], None)

  /** r is what t becomes once the finishes fs have been added. */
  ghost predicate Extends(r: Tally, t: Tally, fs: seq<Finish>) {
    && r.wins == t.wins + Count(fs, IsWin)
    && r.podiums == t.podiums + Count(fs, IsPodium)
    && r.points == t.points + TotalPoints(fs)
    && r.retired == t.retired + Count(fs, IsRetired)
    && r.poles == t.poles + Count(fs, IsPole)
    && r.grids == t.grids + Grids(fs)
    && r.positions == t.positions + Positions(fs)
    && r.team == (if t.team.Some? || |fs| == 0 then t.team else Some(fs[0].team))
  }

  lemma {:induction false} ExtendsCons(r: Tally, t: Tally, f: Finish, fs: seq<Finish>)
    requires Extends(r, t.Add(f), fs)
    ensures Extends(r, t, [f] + fs)
  {
    var s := [f] + fs;
    assert s[0] == f && s[1..] == fs;
    assert Positions(s) == [f.position] + Positions(fs);
    assert Grids(s) == [f.grid] + Grids(fs);
    assert t.positions + [f.position] + Positions(fs) == t.positions + ([f.position] + Positions(fs));
    assert t.grids + [f.grid] + Grids(fs) == t.grids + ([f.grid] + Grids(fs));
  }

  /** One pass of the body of the races loop: it raises exactly when the one-race season
      does, and otherwise adds that season's counted finishes to the accumulators. */
  function Step(t: Tally, race: Race): (r: Result<Tally>)
    ensures r.Err? <==> Finishes([race]).Err?
    ensures r.Err? ==> r.fault == Finishes([race]).fault
    ensures r.Ok? ==> Extends(r.value, t, Finishes([race]).value)
    ensures !HasResults(race) ==> r == Ok(t)
    ensures HasResults(race) && r.Ok? ==> r.value == t.Add(Decode(FirstResult(race)).value)
  {
    var one := [race];
    assert one[0] == race && one[1..] == [];
    if !HasResults(race) then
      assert Played(one) == [];
      Ok(t)
    else
      var x := FirstResult(race);
      assert Played(one) == [x];
      assert [x][1..] == [];
      var f :- Decode(x);
      var fs := [f];
      assert fs[0] == f && fs[1..] == [];
      assert Positions(fs) == [f.position] + Positions([]);
      assert Grids(fs) == [f.grid] + Grids([]);
      Ok(t.Add(f))
  }

  /** The races loop, starting from accumulators t: one Step per race, in order. */
  function FoldRaces(t: Tally, races: seq<Race>): (r: Result<Tally>)
    ensures r.Err? <==> Finishes(races).Err?
    ensures r.Err? ==> r.fault == Finishes(races).fault
    ensures r.Ok? ==> Extends(r.value, t, Finishes(races).value)
    decreases |races|
  {
    if |races| == 0 then Ok(t)
    else
      var race := races[0];
      assert races == [race] + races[1..];
      match Step(t, race)
      case Err(e) =>
        var x := FirstResult(race);
        assert Played(races) == [x] + Played(races[1..]);
        Err(e)
      case Ok(next) =>
        var r := FoldRaces(next, races[1..]);
        if !HasResults(race) then
          assert Played(races) == Played(races[1..]);
          r
        else
          var x := FirstResult(race);
          assert Played(races) == [x] + Played(races[1..]);
          assert ([x] + Played(races[1..]))[1..] == Played(races[1..]);
          if r.Ok? then
            ExtendsCons(r.value, t, Decode(x).value, Finishes(races[1..]).value);
            r
          else r
  }

  // ---------------------------------------------------------------------------
  // The summary

  /** The season's columns of one output row, without driver, season and lookups. */
  datatype SeasonSummary = SeasonSummary(
    races: nat,                // total_carreras
    wins: nat,                 // victorias
    podiums: nat,              // podios
    points: real,              // puntos
    meanPosition: real,        // promedio_posicion_carrera
    meanGrid: real,            // promedio_posicion_clasificacion
    poles: nat,                // poles
    retirements: nat,          // cantidad_dnf
    meanPoints: real,          // promedio_puntos
    mainConstructor: Option<string>)

  /** Accumulators that started from Start hold exactly the reference values. */
  lemma {:induction false} FromStart(t: Tally, fs: seq<Finish>)
    requires Extends(t, Start, fs)
    ensures t.wins == Count(fs, IsWin) && t.podiums == Count(fs, IsPodium)
    ensures t.poles == Count(fs, IsPole) && t.retired == Count(fs, IsRetired)
    ensures t.points == TotalPoints(fs)
    ensures t.positions == Positions(fs) && t.grids == Grids(fs)
    ensures t.team == (if |fs| == 0 then None else Some(fs[0].team))
  {
    assert t.positions == [] + Positions(fs);
    assert t.grids == [] + Grids(fs);
  }

  /** promedio_puntos: the points sum divided by the number of races, 0 without races. */
  function PointsPerRace(points: real, races: nat): (r: real)
    ensures races == 0 ==> r == 0.0
    ensures races > 0 ==> r * races as real == points
  {
    if races > 0 then points / races as real else 0.0
  }

  /** One season in obtener_historicos: the races loop followed by the three averages.
      Every race counts towards the race total, but only races with results contribute
      to anything else. */
  function SummarizeSeason(races: seq<Race>): (r: Result<SeasonSummary>)
    ensures r.Err? <==> Finishes(races).Err?
    ensures r.Err? ==> r.fault == Finishes(races).fault && r.fault.ValueError?
    ensures r.Ok? ==>
      var fs := Finishes(races).value;
      && r.value.races == |races|
      && r.value.wins == Count(fs, IsWin)
      && r.value.podiums == Count(fs, IsPodium)
      && r.value.poles == Count(fs, IsPole)
      && r.value.retirements == Count(fs, IsRetired)
      && r.value.points == TotalPoints(fs)
      && r.value.meanPosition == Mean(Positions(fs))
      && r.value.meanGrid == Mean(Grids(fs))
      && r.value.mainConstructor == (if |fs| == 0 then None else Some(fs[0].team))
    ensures r.Ok? ==> r.value.meanPoints == PointsPerRace(r.value.points, r.value.races)
  {
    var folded := FoldRaces(Start, races);
    if folded.Err? then Err(folded.fault)
    else
      var t := folded.value;
      FromStart(t, Finishes(races).value);
      Ok(SeasonSummary(
        |races|, t.wins, t.podiums, t.points,
        Mean(t.positions), Mean(t.grids),
        t.poles, t.retired,
        PointsPerRace(t.points, |races|),
        t.team))
  }

  // ---------------------------------------------------------------------------
  // Properties of the summary

  lemma {:induction false} CountMonotone(fs: seq<Finish>, p: Finish -> bool, q: Finish -> bool)
    requires forall f :: f in fs && p(f) ==> q(f)
    ensures Count(fs, p) <= Count(fs, q)
  {
    if |fs| > 0 {
      assert fs[0] in fs;
      assert forall f :: f in fs[1..] ==> f in fs;
      CountMonotone(fs[1..], p, q);
    }
  }

  /** Wins <= podiums <= races with results <= all races; poles and retirements are
      bounded by the races with results. */
  lemma {:induction false} SeasonCountBounds(races: seq<Race>)
    ensures SummarizeSeason(races).Ok? ==>
      var s := SummarizeSeason(races).value;
      && s.wins <= s.podiums <= |Played(races)| <= s.races
      && s.poles <= |Played(races)|
      && s.retirements <= |Played(races)|
  {
    if SummarizeSeason(races).Ok? {
      var xs := Played(races);
      var fs := Finishes(races).value;
      forall f | f in fs
        ensures IsWin(f) ==> IsPodium(f)
      {
        var i :| 0 <= i < |fs| && fs[i] == f;
        assert Decode(xs[i]) == Ok(f);
      }
      CountMonotone(fs, IsWin, IsPodium);
    }
  }

  /** Results[0] of the first race that has results heads the counted results. */
  lemma {:induction false} PlayedStartsAtFirst(races: seq<Race>, i: nat)
    requires i < |races| && HasResults(races[i])
    requires forall j :: 0 <= j < i ==> !HasResults(races[j])
    ensures |Played(races)| > 0 && Played(races)[0] == FirstResult(races[i])
  {
    if i > 0 {
      assert !HasResults(races[0]);
      assert forall j :: 0 <= j < i - 1 ==> races[1..][j] == races[j + 1];
      PlayedStartsAtFirst(races[1..], i - 1);
    }
  }

  /** The main constructor is that of the first race with results, and is absent exactly
      when no race has results. */
  lemma {:induction false} MainConstructorIsFirst(races: seq<Race>)
    ensures SummarizeSeason(races).Ok? ==>
      var s := SummarizeSeason(races).value;
      (s.mainConstructor.None? <==> forall i :: 0 <= i < |races| ==> !HasResults(races[i]))
    ensures SummarizeSeason(races).Ok? ==>
      var s := SummarizeSeason(races).value;
      forall i :: 0 <= i < |races| && HasResults(races[i]) && (forall j :: 0 <= j < i ==> !HasResults(races[j])) ==>
        s.mainConstructor == Some(FirstResult(races[i]).constructorName)
  {
    if SummarizeSeason(races).Ok? {
      var s := SummarizeSeason(races).value;
      var xs := Played(races);
      var fs := Finishes(races).value;
      forall i | 0 <= i < |races| && HasResults(races[i]) && (forall j :: 0 <= j < i ==> !HasResults(races[j]))
        ensures s.mainConstructor == Some(FirstResult(races[i]).constructorName)
      {
        PlayedStartsAtFirst(races, i);
        assert Decode(xs[0]) == Ok(fs[0]);
      }
    }
  }

  lemma {:induction false} SumBounds(xs: seq<nat>, lo: nat, hi: nat)
    requires forall i :: 0 <= i < |xs| ==> lo <= xs[i] <= hi
    ensures lo * |xs| <= Sum(xs) <= hi * |xs|
  {
    if |xs| > 0 {
      var rest := xs[1..];
      assert forall i :: 0 <= i < |rest| ==> rest[i] == xs[i + 1];
      SumBounds(rest, lo, hi);
      assert lo * |xs| == lo * |rest| + lo;
      assert hi * |xs| == hi * |rest| + hi;
    }
  }

  lemma {:induction false} RealOfProduct(a: nat, n: nat)
    ensures (a * n) as real == a as real * n as real
  {
    if n > 0 {
      RealOfProduct(a, n - 1);
      assert a * n == a * (n - 1) + a;
      assert a as real * n as real == a as real * (n - 1) as real + a as real;
    }
  }

  /** SumBounds, read in the reals. */
  lemma {:induction false} SumWithin(xs: seq<nat>, lo: nat, hi: nat)
    requires forall i :: 0 <= i < |xs| ==> lo <= xs[i] <= hi
    ensures lo as real * |xs| as real <= Sum(xs) as real <= hi as real * |xs| as real
  {
    SumBounds(xs, lo, hi);
    var n := |xs|;
    var total := Sum(xs);
    assert (lo * n) as real <= total as real <= (hi * n) as real;
    RealOfProduct(lo, n);
    RealOfProduct(hi, n);
  }

  lemma DivWithin(s: real, n: real, lo: real, hi: real)
    requires n > 0.0 && lo * n <= s <= hi * n
    ensures lo <= s / n <= hi
  {
    var m := s / n;
    assert m * n == s;
  }

  /** A mean lies between any bounds of the values it averages. */
  lemma {:induction false} MeanWithin(xs: seq<nat>, lo: nat, hi: nat)
    requires |xs| > 0
    requires forall i :: 0 <= i < |xs| ==> lo <= xs[i] <= hi
    ensures lo as real <= Mean(xs) <= hi as real
  {
    SumWithin(xs, lo, hi);
    DivWithin(Sum(xs) as real, |xs| as real, lo as real, hi as real);
  }

  lemma {:induction false} PositionsAt(fs: seq<Finish>, i: nat)
    requires i < |fs|
    ensures Positions(fs)[i] == fs[i].position
  {
    if i > 0 {
      PositionsAt(fs[1..], i - 1);
    }
  }

  /** When every counted race finished between positions lo and hi, so does the mean
      race position. */
  lemma {:induction false} MeanPositionWithin(races: seq<Race>, lo: nat, hi: nat)
    ensures
      && SummarizeSeason(races).Ok?
      && |Played(races)| > 0
      && (forall x :: x in Played(races) ==> ParseNat(x.position).Some? && lo <= ParseNat(x.position).value <= hi)
      ==> lo as real <= SummarizeSeason(races).value.meanPosition <= hi as real
  {
    if && SummarizeSeason(races).Ok?
       && |Played(races)| > 0
       && (forall x :: x in Played(races) ==> ParseNat(x.position).Some? && lo <= ParseNat(x.position).value <= hi)
    {
      var xs := Played(races);
      var fs := Finishes(races).value;
      var ps := Positions(fs);
      forall i | 0 <= i < |ps|
        ensures lo <= ps[i] <= hi
      {
        PositionsAt(fs, i);
        assert Decode(xs[i]) == Ok(fs[i]);
        assert xs[i] in xs;
      }
      MeanWithin(ps, lo, hi);
    }
  }

  lemma {:induction false} PlayedIgnoresResultless(races: seq<Race>, race: Race)
    requires !HasResults(race)
    ensures Played(races + [race]) == Played(races)
  {
    if |races| == 0 {
      assert Played([race]) == [] + Played([race][1..]);
    } else {
      assert (races + [race])[1..] == races[1..] + [race];
      PlayedIgnoresResultless(races[1..], race);
    }
  }

  /** Appending a race without results adds one to the race total, lowers the points
      average accordingly, and changes nothing else. */
  lemma {:induction false} ResultlessRaceOnlyCounts(races: seq<Race>, race: Race)
    requires !HasResults(race)
    ensures SummarizeSeason(races + [race]).Ok? <==> SummarizeSeason(races).Ok?
    ensures SummarizeSeason(races).Ok? ==>
      var a := SummarizeSeason(races).value;
      SummarizeSeason(races + [race]).value == a.(races := a.races + 1, meanPoints := a.points / (a.races + 1) as real)
  {
    PlayedIgnoresResultless(races, race);
    assert Finishes(races + [race]) == Finishes(races);
  }
}
