/** The cache synchroniser (scraper/scraper.go): it keeps the allow-listed
    dining halls, prunes rows older than the date window, and refreshes every
    (location, period, date) cell in its own transaction, stopping at the
    first error. The provider and the database are oracles: `Upstream`
    answers the catalog and menu requests, `DbFaults` says which database
    steps fail. */
module Scraper {
  import opened Common
  import opened CacheTable
  import C = DineocClient
  import StrConv

  /** The period names in code order: a name's index is its mealtime code. */
  const MealtimeIndexer: seq<string> := ["breakfast", "lunch", "dinner", "everyday"]

  /** The dining halls that are scraped, compared with location names case-sensitively. */
  const HallsToScrape: seq<string> := [
    "Comstock Dining Hall",
    "17th Ave. Dining Hall",
    "Pioneer Dining Hall",
    "Sanford Dining Hall",
    "Middlebrook Dining Hall",
    "Bailey Dining Hall"
  ]

  const DefaultPastScrape: int := 7
  const DefaultFutureScrape: int := 14
  const UmnSiteId: string := "61d7515eb63f1e0e970debbe"

  datatype ScrapeError =
    | NoConnString
    | NoScrapeBackArg
    | NoScrapeFwArg
    | BadNumber(numError: StrConv.NumError)
    | UpstreamError(clientError: C.ClientError)
    | InvalidPeriodName
    | DbError(detail: string)
      /** dates[0] on an empty date list: a Go runtime panic. */
    | DatesIndexOutOfRange

  /** The provider requests the synchroniser makes: the site catalog, and the
      menu of one location, period name and date as (name, id) pairs. */
  datatype Upstream = Upstream(
    buildings: string -> Result<seq<C.FoodBuilding>, C.ClientError>,
    menuById: (string, string, Day) -> Result<seq<CachedMeal>, C.ClientError>)

  /** One unit of work: a location id, a period name and a date. */
  datatype Cell = Cell(locationId: string, periodName: string, day: Day)

  /** Which database steps fail: connecting, the prune statement, and the
      steps of each cell's transaction. */
  datatype DbFaults = DbFaults(connect: Option<string>, prune: Option<string>, tx: Cell -> TxFaults)

  /** The table after a step, and the error the step returned, if any. */
  datatype Outcome = Outcome(rows: seq<Row>, err: Option<ScrapeError>)

  // ---------------------------------------------------------------------------
  // Locations to scrape

  /** One copy of the location per allow-list entry equal to its name. */
  function HallCopies(location: C.Restaurant, halls: seq<string>): seq<C.Restaurant>
  {
    if halls == [] then []
    else HallCopies(location, halls[..|halls| - 1]) + (if location.name == halls[|halls| - 1] then [location] else [])
  }

  ghost predicate Distinct(names: seq<string>)
  {
    forall i, j :: 0 <= i < j < |names| ==> names[i] != names[j]
  }

  /** With distinct hall names a location is copied at most once. */
  lemma {:induction false} HallCopiesOnce(location: C.Restaurant, halls: seq<string>)
    requires Distinct(halls)
    ensures HallCopies(location, halls) == if location.name in halls then [location] else []
  {
    if halls != [] {
      var n := |halls| - 1;
      assert Distinct(halls[..n]);
      HallCopiesOnce(location, halls[..n]);
      assert halls == halls[..n] + [halls[n]];
      if location.name == halls[n] {
        assert location.name !in halls[..n];
      }
    }
  }

  /** The allow-listed locations, each kept once, in order. */
  function AllowListed(locations: seq<C.Restaurant>): seq<C.Restaurant>
  {
    if locations == [] then []
    else
      var last := locations[|locations| - 1];
      AllowListed(locations[..|locations| - 1]) + (if last.name in HallsToScrape then [last] else [])
  }

  lemma AllowListedSnoc(locations: seq<C.Restaurant>, l: C.Restaurant)
    ensures AllowListed(locations + [l]) == AllowListed(locations) + (if l.name in HallsToScrape then [l] else [])
  {
    assert (locations + [l])[..|locations|] == locations;
  }

  /** A location is scraped exactly when its name is on the allow-list. */
  lemma {:induction false} AllowListedMembership(locations: seq<C.Restaurant>, l: C.Restaurant)
    ensures l in AllowListed(locations) <==> l in locations && l.name in HallsToScrape
  {
    if locations != [] {
      var n := |locations| - 1;
      AllowListedMembership(locations[..n], l);
      assert locations == locations[..n] + [locations[n]];
    }
  }

  function LocationsToScrape(catalog: Result<seq<C.FoodBuilding>, C.ClientError>): Result<seq<C.Restaurant>, ScrapeError>
  {
    match catalog
    case Failure(e) => Failure(UpstreamError(e))
    case Success(buildings) => Success(AllowListed(C.CatalogLocations(buildings)))
  }

  lemma {:induction false} AllowListedAppend(a: seq<C.Restaurant>, b: seq<C.Restaurant>)
    ensures AllowListed(a + b) == AllowListed(a) + AllowListed(b)
    decreases |b|
  {
    if b == [] {
      assert a + b == a;
    } else {
      var n := |b| - 1;
      var init, l := b[..n], b[n];
      var tail := if l.name in HallsToScrape then [l] else [];
      assert b == init + [l];
      assert a + b == (a + init) + [l];
      calc {
        AllowListed(a + b);
        AllowListed((a + init) + [l]);
        { AllowListedSnoc(a + init, l); }
        AllowListed(a + init) + tail;
        { AllowListedAppend(a, init); }
        (AllowListed(a) + AllowListed(init)) + tail;
        AllowListed(a) + (AllowListed(init) + tail);
        { AllowListedSnoc(init, l); }
        AllowListed(a) + AllowListed(b);
      }
    }
  }

  method GetLocations(upstream: Upstream, siteId: string) returns (r: Result<seq<C.Restaurant>, ScrapeError>)
    ensures r == LocationsToScrape(upstream.buildings(siteId))
  {
    var catalog := upstream.buildings(siteId);
    if catalog.Failure? {
      return Failure(UpstreamError(catalog.error));
    }
    var buildings := catalog.value;
    var locations: seq<C.Restaurant> := [];
    var i := 0;
    while i < |buildings|
      invariant 0 <= i <= |buildings|
      invariant locations == AllowListed(C.CatalogLocations(buildings[..i]))
    {
      var kept := KeepAllowListed(buildings[i].locations);
      assert buildings[..i + 1][..i] == buildings[..i];
      AllowListedAppend(C.CatalogLocations(buildings[..i]), buildings[i].locations);
      locations := locations + kept;
      i := i + 1;
    }
    assert buildings[..i] == buildings;
    return Success(locations);
  }

  /** The location loop of one building. */
  method KeepAllowListed(here: seq<C.Restaurant>) returns (kept: seq<C.Restaurant>)
    ensures kept == AllowListed(here)
  {
    kept := [];
    var j := 0;
    while j < |here|
      invariant 0 <= j <= |here|
      invariant kept == AllowListed(here[..j])
    {
      var copies := KeepHalls(here[j]);
      assert here[..j + 1] == here[..j] + [here[j]];
      AllowListedSnoc(here[..j], here[j]);
      kept := kept + copies;
      j := j + 1;
    }
    assert here[..j] == here;
  }

  /** The scan of the allow-list for one location. */
  method KeepHalls(location: C.Restaurant) returns (copies: seq<C.Restaurant>)
    ensures copies == if location.name in HallsToScrape then [location] else []
  {
    copies := [];
    var k := 0;
    while k < |HallsToScrape|
      invariant 0 <= k <= |HallsToScrape|
      invariant copies == HallCopies(location, HallsToScrape[..k])
    {
      assert HallsToScrape[..k + 1][..k] == HallsToScrape[..k];
      if location.name == HallsToScrape[k] {
        copies := copies + [location];
      }
      k := k + 1;
    }
    assert HallsToScrape[..k] == HallsToScrape;
    HallCopiesOnce(location, HallsToScrape);
  }

  // ---------------------------------------------------------------------------
  // Period codes

  /** The mealtime code of a period name: the index of its lower-cased form. */
  function PeriodCode(periodName: string): (r: Option<int>)
    ensures r.Some? <==> Lower(periodName) in MealtimeIndexer
    ensures r.Some? ==> 0 <= r.value < |MealtimeIndexer| && MealtimeIndexer[r.value] == Lower(periodName)
  {
    match Lower(periodName)
    case "breakfast" => Some(0)
    case "lunch" => Some(1)
    case "dinner" => Some(2)
    case "everyday" => Some(3)
    case _ => None
  }

  /** The scan over mealtimeIndexer, with 255 standing for "no match". */
  method MealtimeCode(periodName: string) returns (code: int)
    ensures code == if PeriodCode(periodName).Some? then PeriodCode(periodName).value else 255
  {
    var name := Lower(periodName);
    code := 255;
    var i := 0;
    while i < |MealtimeIndexer|
      invariant 0 <= i <= |MealtimeIndexer|
      invariant code == 255 <==> name !in MealtimeIndexer[..i]
      invariant code != 255 ==> 0 <= code < i && MealtimeIndexer[code] == name
    {
      assert MealtimeIndexer[..i + 1] == MealtimeIndexer[..i] + [MealtimeIndexer[i]];
      if name == MealtimeIndexer[i] {
        code := i;
      }
      i := i + 1;
    }
    assert MealtimeIndexer[..i] == MealtimeIndexer;
  }

  /** Every canonical name is already lower-case and gets its own index. */
  lemma IndexerCodes()
    ensures forall i :: 0 <= i < |MealtimeIndexer| ==> PeriodCode(MealtimeIndexer[i]) == Some(i)
  {
    assert Lower("breakfast") == "breakfast";
    assert Lower("lunch") == "lunch";
    assert Lower("dinner") == "dinner";
    assert Lower("everyday") == "everyday";
  }

  /** The cache key a cell writes, if its period name is valid. */
  function KeyOfCell(c: Cell): Option<CellKey>
  {
    match PeriodCode(c.periodName)
    case None => None
    case Some(code) => Some(CellKey(c.day, c.locationId, code))
  }

  // ---------------------------------------------------------------------------
  // One cell

  /** scrapeMenuToDatabase: fetch, check the period name, then replace the
      cell in one transaction. */
  function CellStep(rows: seq<Row>, upstream: Upstream, db: DbFaults, c: Cell): Outcome
  {
    match upstream.menuById(c.locationId, c.periodName, c.day)
    case Failure(e) => Outcome(rows, Some(UpstreamError(e)))
    case Success(meals) =>
      match PeriodCode(c.periodName)
      case None => Outcome(rows, Some(InvalidPeriodName))
      case Some(code) =>
        match FirstTxFault(db.tx(c), |meals| != 0)
        case Some(detail) => Outcome(rows, Some(DbError(detail)))
        case None => Outcome(ReplaceCell(rows, CellKey(c.day, c.locationId, code), meals), None)
  }

  method ScrapeMenuToDatabase(cache: DocCache, upstream: Upstream, db: DbFaults, locationId: string, periodName: string, date: Day)
    returns (err: Option<ScrapeError>)
    modifies cache
    ensures Outcome(cache.rows, err) == CellStep(old(cache.rows), upstream, db, Cell(locationId, periodName, date))
  {
    var menu := upstream.menuById(locationId, periodName, date);
    if menu.Failure? {
      return Some(UpstreamError(menu.error));
    }
    var code := MealtimeCode(periodName);
    if code == 255 {
      return Some(InvalidPeriodName);
    }
    var txErr := cache.ReplaceCellInTransaction(CellKey(date, locationId, code), menu.value, db.tx(Cell(locationId, periodName, date)));
    if txErr.Some? {
      return Some(DbError(txErr.value));
    }
    return None;
  }

  // ---------------------------------------------------------------------------
  // The whole run

  /** The cells of one location and period, dates in order. */
  function DateCells(locationId: string, periodName: string, dates: seq<Day>): seq<Cell>
  {
    seq(|dates|, i requires 0 <= i < |dates| => Cell(locationId, periodName, dates[i]))
  }

  /** The cells of one location: periods in order, then dates. */
  function PeriodCells(locationId: string, periods: seq<string>, dates: seq<Day>): seq<Cell>
  {
    if periods == [] then []
    else PeriodCells(locationId, periods[..|periods| - 1], dates) + DateCells(locationId, periods[|periods| - 1], dates)
  }

  /** Every cell of a run: locations in order, then periods, then dates. */
  function LocationCells(locations: seq<C.Restaurant>, dates: seq<Day>): seq<Cell>
  {
    if locations == [] then []
    else LocationCells(locations[..|locations| - 1], dates) + PeriodCells(locations[|locations| - 1].id, MealtimeIndexer, dates)
  }

  /** Process cells in order until one fails. */
  function RunCells(rows: seq<Row>, upstream: Upstream, db: DbFaults, cells: seq<Cell>): Outcome
    decreases |cells|
  {
    if cells == [] then Outcome(rows, None)
    else
      var first := CellStep(rows, upstream, db, cells[0]);
      if first.err.Some? then first else RunCells(first.rows, upstream, db, cells[1..])
  }

  /** A run over a + b is the run over a, continued over b only if a succeeded. */
  lemma {:induction false} RunCellsAppend(rows: seq<Row>, upstream: Upstream, db: DbFaults, a: seq<Cell>, b: seq<Cell>)
    ensures RunCells(rows, upstream, db, a + b)
      == (var ra := RunCells(rows, upstream, db, a); if ra.err.Some? then ra else RunCells(ra.rows, upstream, db, b))
    decreases |a|
  {
    if a == [] {
      assert a + b == b;
    } else {
      assert (a + b)[0] == a[0];
      assert (a + b)[1..] == a[1..] + b;
      var first := CellStep(rows, upstream, db, a[0]);
      if first.err.None? {
        RunCellsAppend(first.rows, upstream, db, a[1..], b);
      }
    }
  }

  /** Once a prefix of the cells fails, the rest of the run never happens. */
  lemma RunCellsStopsAtPrefix(rows: seq<Row>, upstream: Upstream, db: DbFaults, a: seq<Cell>, b: seq<Cell>)
    requires a <= b
    requires RunCells(rows, upstream, db, a).err.Some?
    ensures RunCells(rows, upstream, db, b) == RunCells(rows, upstream, db, a)
  {
    assert b == a + b[|a|..];
    RunCellsAppend(rows, upstream, db, a, b[|a|..]);
  }

  /** Fail-fast: a failed run is some successful prefix, followed by one cell
      whose step failed and left the table as it was; no later cell ran. */
  lemma {:induction false} RunCellsFailFast(rows: seq<Row>, upstream: Upstream, db: DbFaults, cells: seq<Cell>)
    requires RunCells(rows, upstream, db, cells).err.Some?
    ensures exists n :: (0 <= n < |cells|
      && RunCells(rows, upstream, db, cells[..n]).err.None?
      && CellStep(RunCells(rows, upstream, db, cells[..n]).rows, upstream, db, cells[n])
         == RunCells(rows, upstream, db, cells)
      && RunCells(rows, upstream, db, cells).rows == RunCells(rows, upstream, db, cells[..n]).rows)
  {
    var n := FailingCell(rows, upstream, db, cells);
  }

  /** The position of the failing cell of a failed run. */
  lemma {:induction false} FailingCell(rows: seq<Row>, upstream: Upstream, db: DbFaults, cells: seq<Cell>) returns (n: nat)
    requires RunCells(rows, upstream, db, cells).err.Some?
    ensures n < |cells|
    ensures RunCells(rows, upstream, db, cells[..n]).err.None?
    ensures CellStep(RunCells(rows, upstream, db, cells[..n]).rows, upstream, db, cells[n]) == RunCells(rows, upstream, db, cells)
    ensures RunCells(rows, upstream, db, cells).rows == RunCells(rows, upstream, db, cells[..n]).rows
    decreases |cells|
  {
    var first := CellStep(rows, upstream, db, cells[0]);
    assert cells[..0] == [];
    if first.err.Some? {
      n := 0;
      assert RunCells(rows, upstream, db, cells[..0]) == Outcome(rows, None);
    } else {
      var k := FailingCell(first.rows, upstream, db, cells[1..]);
      n := k + 1;
      RunCellsShift(rows, upstream, db, cells, k);
    }
  }

  /** After a first cell that succeeds, the run over the first k + 1 cells is
      the run over the next k cells from the rows that cell left. */
  lemma RunCellsShift(rows: seq<Row>, upstream: Upstream, db: DbFaults, cells: seq<Cell>, k: nat)
    requires k < |cells| - 1
    requires CellStep(rows, upstream, db, cells[0]).err.None?
    ensures RunCells(rows, upstream, db, cells[..k + 1])
      == RunCells(CellStep(rows, upstream, db, cells[0]).rows, upstream, db, cells[1..][..k])
    ensures cells[k + 1] == cells[1..][k]
  {
    var first := CellStep(rows, upstream, db, cells[0]);
    assert cells[..k + 1] == [cells[0]] + cells[1..][..k];
    RunCellsAppend(rows, upstream, db, [cells[0]], cells[1..][..k]);
    assert [cells[0]][1..] == [];
    assert RunCells(rows, upstream, db, [cells[0]]) == Outcome(first.rows, None);
  }

  /** A step changes no row outside the key of its own cell. */
  lemma CellStepElsewhere(rows: seq<Row>, upstream: Upstream, db: DbFaults, c: Cell, k: CellKey)
    requires KeyOfCell(c) != Some(k)
    ensures RowsAt(CellStep(rows, upstream, db, c).rows, k) == RowsAt(rows, k)
  {
    var s := CellStep(rows, upstream, db, c);
    if s.rows != rows {
      var meals := upstream.menuById(c.locationId, c.periodName, c.day).value;
      ReplaceCellElsewhere(rows, KeyOfCell(c).value, meals, k);
    }
  }

  /** Rows whose key no cell of the run writes are left as they were,
      whether the run succeeds or fails. */
  lemma {:induction false} RunCellsElsewhere(rows: seq<Row>, upstream: Upstream, db: DbFaults, cells: seq<Cell>, k: CellKey)
    requires forall i :: 0 <= i < |cells| ==> KeyOfCell(cells[i]) != Some(k)
    ensures RowsAt(RunCells(rows, upstream, db, cells).rows, k) == RowsAt(rows, k)
    decreases |cells|
  {
    if cells != [] {
      var first := CellStep(rows, upstream, db, cells[0]);
      CellStepElsewhere(rows, upstream, db, cells[0], k);
      if first.err.None? {
        RunCellsElsewhere(first.rows, upstream, db, cells[1..], k);
      }
    }
  }

  /** After a successful run every cell holds exactly the meals fetched for
      it, in fetch order, provided every period name is a canonical one. */
  lemma {:induction false} RunCellsRefreshes(rows: seq<Row>, upstream: Upstream, db: DbFaults, cells: seq<Cell>, c: Cell)
    requires RunCells(rows, upstream, db, cells).err.None?
    requires forall i :: 0 <= i < |cells| ==> cells[i].periodName in MealtimeIndexer
    requires c in cells
    ensures upstream.menuById(c.locationId, c.periodName, c.day).Success?
    ensures KeyOfCell(c).Some?
    ensures RowsAt(RunCells(rows, upstream, db, cells).rows, KeyOfCell(c).value)
      == CellRows(KeyOfCell(c).value, upstream.menuById(c.locationId, c.periodName, c.day).value)
    decreases |cells|
  {
    var first := CellStep(rows, upstream, db, cells[0]);
    assert first.err.None?;
    var rest := cells[1..];
    assert forall i :: 0 <= i < |rest| ==> rest[i].periodName in MealtimeIndexer;
    if c in rest {
      RunCellsRefreshes(first.rows, upstream, db, rest, c);
    } else {
      assert c == cells[0];
      var k := KeyOfCell(c).value;
      var meals := upstream.menuById(c.locationId, c.periodName, c.day).value;
      ReplaceCellAtKey(rows, k, meals);
      IndexerCodes();
      forall i | 0 <= i < |rest| ensures KeyOfCell(rest[i]) != Some(k) {
        if KeyOfCell(rest[i]) == Some(k) {
          assert false;
        }
      }
      RunCellsElsewhere(first.rows, upstream, db, rest, k);
    }
  }

  /** A run over cells on or after the cutoff never writes a row before it. */
  lemma {:induction false} RunCellsKeepsWindow(rows: seq<Row>, upstream: Upstream, db: DbFaults, cells: seq<Cell>, cutoff: Day)
    requires forall r :: r in rows ==> r.day >= cutoff
    requires forall i :: 0 <= i < |cells| ==> cells[i].day >= cutoff
    ensures forall r :: r in RunCells(rows, upstream, db, cells).rows ==> r.day >= cutoff
    decreases |cells|
  {
    if cells != [] {
      var first := CellStep(rows, upstream, db, cells[0]);
      if first.rows != rows {
        var k := KeyOfCell(cells[0]).value;
        var meals := upstream.menuById(cells[0].locationId, cells[0].periodName, cells[0].day).value;
        forall r | r in first.rows ensures r.day >= cutoff {
          WhereMembership(rows, KeyIsNot(k), r);
        }
      }
      if first.err.None? {
        RunCellsKeepsWindow(first.rows, upstream, db, cells[1..], cutoff);
      }
    }
  }

  lemma PeriodCellsPrefix(locationId: string, periods: seq<string>, m: nat, dates: seq<Day>)
    requires m <= |periods|
    ensures PeriodCells(locationId, periods[..m], dates) <= PeriodCells(locationId, periods, dates)
    decreases |periods| - m
  {
    if m < |periods| {
      var n := |periods| - 1;
      PeriodCellsPrefix(locationId, periods[..n], m, dates);
      assert periods[..n][..m] == periods[..m];
    } else {
      assert periods[..m] == periods;
    }
  }

  lemma LocationCellsPrefix(locations: seq<C.Restaurant>, m: nat, dates: seq<Day>)
    requires m <= |locations|
    ensures LocationCells(locations[..m], dates) <= LocationCells(locations, dates)
    decreases |locations| - m
  {
    if m < |locations| {
      var n := |locations| - 1;
      LocationCellsPrefix(locations[..n], m, dates);
      assert locations[..n][..m] == locations[..m];
    } else {
      assert locations[..m] == locations;
    }
  }

  /** The cells of a run are exactly (allow-listed location, canonical period, date) triples. */
  lemma {:induction false} LocationCellsMembership(locations: seq<C.Restaurant>, dates: seq<Day>, c: Cell)
    ensures c in LocationCells(locations, dates) <==>
      (exists l :: l in locations && l.id == c.locationId) && c.periodName in MealtimeIndexer && c.day in dates
  {
    if locations != [] {
      var n := |locations| - 1;
      LocationCellsMembership(locations[..n], dates, c);
      PeriodCellsMembership(locations[n].id, MealtimeIndexer, dates, c);
      assert locations == locations[..n] + [locations[n]];
    }
  }

  lemma {:induction false} PeriodCellsMembership(locationId: string, periods: seq<string>, dates: seq<Day>, c: Cell)
    ensures c in PeriodCells(locationId, periods, dates) <==>
      c.locationId == locationId && c.periodName in periods && c.day in dates
  {
    if periods != [] {
      var n := |periods| - 1;
      PeriodCellsMembership(locationId, periods[..n], dates, c);
      assert periods == periods[..n] + [periods[n]];
      if c.locationId == locationId && c.periodName == periods[n] && c.day in dates {
        var i :| 0 <= i < |dates| && dates[i] == c.day;
        assert DateCells(locationId, periods[n], dates)[i] == c;
      }
    }
  }

  /** What ScrapeMenusToDatabase does to the table and what it returns. */
  function ScrapeRun(rows: seq<Row>, upstream: Upstream, db: DbFaults, dates: seq<Day>, siteId: string): Outcome
  {
    match LocationsToScrape(upstream.buildings(siteId))
    case Failure(e) => Outcome(rows, Some(e))
    case Success(locations) =>
      if |dates| == 0 then Outcome(rows, Some(DatesIndexOutOfRange))
      else if db.prune.Some? then Outcome(rows, Some(DbError(db.prune.value)))
      else RunCells(PruneBefore(rows, dates[0]), upstream, db, LocationCells(locations, dates))
  }

  method ScrapeMenusToDatabase(cache: DocCache, upstream: Upstream, db: DbFaults, dates: seq<Day>, siteId: string)
    returns (err: Option<ScrapeError>)
    modifies cache
    ensures Outcome(cache.rows, err) == ScrapeRun(old(cache.rows), upstream, db, dates, siteId)
  {
    var located := GetLocations(upstream, siteId);
    if located.Failure? {
      return Some(located.error);
    }
    var locations := located.value;
    if |dates| == 0 {
      return Some(DatesIndexOutOfRange);
    }
    var pruneErr := cache.DeleteOlderThan(dates[0], db.prune);
    if pruneErr.Some? {
      return Some(DbError(pruneErr.value));
    }
    ghost var start := cache.rows;
    var i := 0;
    while i < |locations|
      invariant 0 <= i <= |locations|
      invariant RunCells(start, upstream, db, LocationCells(locations[..i], dates)) == Outcome(cache.rows, None)
    {
      ghost var before := LocationCells(locations[..i], dates);
      ghost var blockCells := PeriodCells(locations[i].id, MealtimeIndexer, dates);
      err := ScrapeLocation(cache, upstream, db, locations[i].id, dates);
      RunCellsAppend(start, upstream, db, before, blockCells);
      assert locations[..i + 1][..i] == locations[..i];
      assert LocationCells(locations[..i + 1], dates) == before + blockCells;
      if err.Some? {
        LocationCellsPrefix(locations, i + 1, dates);
        RunCellsStopsAtPrefix(start, upstream, db, before + blockCells, LocationCells(locations, dates));
        return err;
      }
      i := i + 1;
    }
    assert locations[..i] == locations;
    return None;
  }

  /** The middle loop: every canonical period of one location. */
  method ScrapeLocation(cache: DocCache, upstream: Upstream, db: DbFaults, locationId: string, dates: seq<Day>)
    returns (err: Option<ScrapeError>)
    modifies cache
    ensures Outcome(cache.rows, err) == RunCells(old(cache.rows), upstream, db, PeriodCells(locationId, MealtimeIndexer, dates))
  {
    ghost var start := cache.rows;
    assert MealtimeIndexer[..0] == [];
    var j := 0;
    while j < |MealtimeIndexer|
      invariant 0 <= j <= |MealtimeIndexer|
      invariant RunCells(start, upstream, db, PeriodCells(locationId, MealtimeIndexer[..j], dates)) == Outcome(cache.rows, None)
    {
      ghost var before := PeriodCells(locationId, MealtimeIndexer[..j], dates);
      ghost var blockCells := DateCells(locationId, MealtimeIndexer[j], dates);
      err := ScrapeDates(cache, upstream, db, locationId, MealtimeIndexer[j], dates);
      RunCellsAppend(start, upstream, db, before, blockCells);
      assert MealtimeIndexer[..j + 1][..j] == MealtimeIndexer[..j];
      assert PeriodCells(locationId, MealtimeIndexer[..j + 1], dates) == before + blockCells;
      if err.Some? {
        PeriodCellsPrefix(locationId, MealtimeIndexer, j + 1, dates);
        RunCellsStopsAtPrefix(start, upstream, db, before + blockCells, PeriodCells(locationId, MealtimeIndexer, dates));
        return err;
      }
      j := j + 1;
    }
    assert MealtimeIndexer[..j] == MealtimeIndexer;
    return None;
  }

  /** The inner loop: every date of one location and period. */
  method ScrapeDates(cache: DocCache, upstream: Upstream, db: DbFaults, locationId: string, periodName: string, dates: seq<Day>)
    returns (err: Option<ScrapeError>)
    modifies cache
    ensures Outcome(cache.rows, err) == RunCells(old(cache.rows), upstream, db, DateCells(locationId, periodName, dates))
  {
    ghost var start := cache.rows;
    var k := 0;
    while k < |dates|
      invariant 0 <= k <= |dates|
      invariant RunCells(start, upstream, db, DateCells(locationId, periodName, dates[..k])) == Outcome(cache.rows, None)
    {
      ghost var before := DateCells(locationId, periodName, dates[..k]);
      ghost var cell := Cell(locationId, periodName, dates[k]);
      err := ScrapeMenuToDatabase(cache, upstream, db, locationId, periodName, dates[k]);
      RunCellsAppend(start, upstream, db, before, [cell]);
      assert [cell][1..] == [];
      assert DateCells(locationId, periodName, dates[..k + 1]) == before + [cell];
      if err.Some? {
        assert before + [cell] == DateCells(locationId, periodName, dates)[..k + 1];
        RunCellsStopsAtPrefix(start, upstream, db, before + [cell], DateCells(locationId, periodName, dates));
        return err;
      }
      k := k + 1;
    }
    assert dates[..k] == dates;
    return None;
  }

  /** A successful run leaves no row before the window start (when the window
      starts at its earliest date), and every cell of the run holds exactly
      its fetched meals. */
  lemma ScrapeRunSucceeded(rows: seq<Row>, upstream: Upstream, db: DbFaults, dates: seq<Day>, siteId: string,
                           l: C.Restaurant, p: int, d: Day)
    requires ScrapeRun(rows, upstream, db, dates, siteId).err.None?
    requires forall i :: 0 <= i < |dates| ==> dates[i] >= dates[0]
    ensures |dates| > 0 && upstream.buildings(siteId).Success?
    ensures forall r :: r in ScrapeRun(rows, upstream, db, dates, siteId).rows ==> r.day >= dates[0]
    ensures (l in C.CatalogLocations(upstream.buildings(siteId).value) && l.name in HallsToScrape
             && 0 <= p < |MealtimeIndexer| && d in dates) ==>
      && upstream.menuById(l.id, MealtimeIndexer[p], d).Success?
      && RowsAt(ScrapeRun(rows, upstream, db, dates, siteId).rows, CellKey(d, l.id, p))
         == CellRows(CellKey(d, l.id, p), upstream.menuById(l.id, MealtimeIndexer[p], d).value)
  {
    var locations := AllowListed(C.CatalogLocations(upstream.buildings(siteId).value));
    var cells := LocationCells(locations, dates);
    var pruned := PruneBefore(rows, dates[0]);
    PruneBeforeEffect(rows, dates[0], CellKey(d, l.id, p));
    forall i | 0 <= i < |cells| ensures cells[i].periodName in MealtimeIndexer && cells[i].day >= dates[0] {
      LocationCellsMembership(locations, dates, cells[i]);
    }
    RunCellsKeepsWindow(pruned, upstream, db, cells, dates[0]);
    if l in C.CatalogLocations(upstream.buildings(siteId).value) && l.name in HallsToScrape
        && 0 <= p < |MealtimeIndexer| && d in dates {
      var c := Cell(l.id, MealtimeIndexer[p], d);
      AllowListedMembership(C.CatalogLocations(upstream.buildings(siteId).value), l);
      LocationCellsMembership(locations, dates, c);
      IndexerCodes();
      RunCellsRefreshes(pruned, upstream, db, cells, c);
    }
  }

  /** The run touches only its own cells: the rows of a key at or after the
      window start keep their contents, whatever the run's outcome, when the
      key's date is outside the window, its mealtime is not a code, or its
      location is not an allow-listed location of the catalog. */
  lemma ScrapeRunElsewhere(rows: seq<Row>, upstream: Upstream, db: DbFaults, dates: seq<Day>, siteId: string, k: CellKey)
    requires |dates| > 0 ==> k.day >= dates[0]
    requires || k.day !in dates
             || !(0 <= k.mealtime < |MealtimeIndexer|)
             || (upstream.buildings(siteId).Success? ==>
                  forall l :: l in C.CatalogLocations(upstream.buildings(siteId).value) && l.name in HallsToScrape
                    ==> l.id != k.location)
    ensures RowsAt(ScrapeRun(rows, upstream, db, dates, siteId).rows, k) == RowsAt(rows, k)
  {
    var catalog := upstream.buildings(siteId);
    if catalog.Success? && |dates| > 0 && db.prune.None? {
      var locations := AllowListed(C.CatalogLocations(catalog.value));
      var cells := LocationCells(locations, dates);
      var pruned := PruneBefore(rows, dates[0]);
      assert ScrapeRun(rows, upstream, db, dates, siteId) == RunCells(pruned, upstream, db, cells);
      PruneBeforeEffect(rows, dates[0], k);
      forall i | 0 <= i < |cells| ensures KeyOfCell(cells[i]) != Some(k) {
        var c := cells[i];
        LocationCellsMembership(locations, dates, c);
        if KeyOfCell(c) == Some(k) {
          var l :| l in locations && l.id == c.locationId;
          AllowListedMembership(C.CatalogLocations(catalog.value), l);
        }
      }
      RunCellsElsewhere(pruned, upstream, db, cells, k);
    } else {
      assert ScrapeRun(rows, upstream, db, dates, siteId).rows == rows;
    }
  }

  // ---------------------------------------------------------------------------
  // Command line and date window

  /** The error the flag at position i raises, if any. */
  function FlagError(args: seq<string>, i: nat): Option<ScrapeError>
    requires i < |args|
  {
    if args[i] == "-back" then
      if |args| < i + 2 then Some(NoScrapeBackArg)
      else if StrConv.ParseInt(args[i + 1]).Failure? then Some(BadNumber(StrConv.ParseInt(args[i + 1]).error))
      else None
    else if args[i] == "-forward" then
      if |args| < i + 2 then Some(NoScrapeFwArg)
      else if StrConv.ParseInt(args[i + 1]).Failure? then Some(BadNumber(StrConv.ParseInt(args[i + 1]).error))
      else None
    else None
  }

  /** The first error raised by a flag at a position before n. */
  function FirstFlagError(args: seq<string>, n: nat): Option<ScrapeError>
    requires n <= |args|
  {
    if n == 0 then None
    else if FirstFlagError(args, n - 1).Some? then FirstFlagError(args, n - 1)
    else FlagError(args, n - 1)
  }

  /** Once a flag has failed, later positions do not change the first error. */
  lemma {:induction false} FirstFlagErrorSticks(args: seq<string>, m: nat, n: nat)
    requires m <= n <= |args|
    requires FirstFlagError(args, m).Some?
    ensures FirstFlagError(args, n) == FirstFlagError(args, m)
    decreases n
  {
    if n > m {
      FirstFlagErrorSticks(args, m, n - 1);
    }
  }

  /** The values given to `flag` at positions before n, in order. */
  function FlagValues(args: seq<string>, flag: string, n: nat): seq<int>
    requires n <= |args|
  {
    if n == 0 then []
    else
      FlagValues(args, flag, n - 1)
        + (if args[n - 1] == flag && n < |args| && StrConv.ParseInt(args[n]).Success?
           then [StrConv.ParseInt(args[n]).value] else [])
  }

  /** The outcome of the argument loop: the first bad flag, or else the last
      value of each flag (the defaults when absent). */
  function ArgsOutcome(args: seq<string>): Result<(int, int), ScrapeError>
  {
    match FirstFlagError(args, |args|)
    case Some(e) => Failure(e)
    case None =>
      Success((LastOr(FlagValues(args, "-back", |args|), DefaultPastScrape),
               LastOr(FlagValues(args, "-forward", |args|), DefaultFutureScrape)))
  }

  /** One iteration of the argument loop that raised no error: the first
      error is still absent, and a flag's value changes only at that flag. */
  lemma FlagStep(args: seq<string>, i: nat, flag: string, default: int)
    requires i < |args| && FirstFlagError(args, i).None? && FlagError(args, i).None?
    requires flag == "-back" || flag == "-forward"
    ensures FirstFlagError(args, i + 1).None?
    ensures args[i] == flag ==> i + 1 < |args| && StrConv.ParseInt(args[i + 1]).Success?
    ensures LastOr(FlagValues(args, flag, i + 1), default)
      == if args[i] == flag then StrConv.ParseInt(args[i + 1]).value else LastOr(FlagValues(args, flag, i), default)
  {
  }

  method ParseArgs(args: seq<string>) returns (r: Result<(int, int), ScrapeError>)
    ensures r == ArgsOutcome(args)
  {
    var back := DefaultPastScrape;
    var forward := DefaultFutureScrape;
    var i := 0;
    while i < |args|
      invariant 0 <= i <= |args|
      invariant FirstFlagError(args, i).None?
      invariant back == LastOr(FlagValues(args, "-back", i), DefaultPastScrape)
      invariant forward == LastOr(FlagValues(args, "-forward", i), DefaultFutureScrape)
    {
      var arg := args[i];
      if arg == "-back" {
        if |args| < i + 2 {
          return Failure(NoScrapeBackArg);
        }
        var parsed := StrConv.ParseInt(args[i + 1]);
        if parsed.Failure? {
          FirstFlagErrorSticks(args, i + 1, |args|);
          return Failure(BadNumber(parsed.error));
        }
        back := parsed.value;
      } else if arg == "-forward" {
        if |args| < i + 2 {
          return Failure(NoScrapeFwArg);
        }
        var parsed := StrConv.ParseInt(args[i + 1]);
        if parsed.Failure? {
          FirstFlagErrorSticks(args, i + 1, |args|);
          return Failure(BadNumber(parsed.error));
        }
        forward := parsed.value;
      }
      FlagStep(args, i, "-back", DefaultPastScrape);
      FlagStep(args, i, "-forward", DefaultFutureScrape);
      i := i + 1;
    }
    return Success((back, forward));
  }

  /** Without either flag the window is 7 days back and 14 forward. */
  lemma {:induction false} ArgsDefaults(args: seq<string>, n: nat)
    requires n <= |args|
    requires forall i :: 0 <= i < |args| ==> args[i] != "-back" && args[i] != "-forward"
    ensures FirstFlagError(args, n).None?
    ensures FlagValues(args, "-back", n) == [] && FlagValues(args, "-forward", n) == []
    ensures n == |args| ==> ArgsOutcome(args) == Success((DefaultPastScrape, DefaultFutureScrape))
  {
    if n > 0 {
      ArgsDefaults(args, n - 1);
    }
  }

  /** A flag in last position, with no earlier error, lacks its value. */
  lemma DanglingFlag(args: seq<string>)
    requires |args| > 0 && FirstFlagError(args, |args| - 1).None?
    ensures args[|args| - 1] == "-back" ==> ArgsOutcome(args) == Failure(NoScrapeBackArg)
    ensures args[|args| - 1] == "-forward" ==> ArgsOutcome(args) == Failure(NoScrapeFwArg)
  {
  }

  /** Round trip: "prog -back B -forward F" parses back to (B, F). */
  lemma ArgsRoundTrip(prog: string, back: nat, forward: nat)
    requires prog != "-back" && prog != "-forward"
    requires back < StrConv.SignCutoff && forward < StrConv.SignCutoff
    ensures ArgsOutcome([prog, "-back", StrConv.DecimalString(back), "-forward", StrConv.DecimalString(forward)])
      == Success((back, forward))
  {
    var b := StrConv.DecimalString(back);
    var f := StrConv.DecimalString(forward);
    var args := [prog, "-back", b, "-forward", f];
    StrConv.ParseIntDecimal(back);
    StrConv.ParseIntDecimal(forward);
    assert b != "-back" && b != "-forward" by { assert StrConv.IsDigit(b[0]); }
    assert f != "-back" && f != "-forward" by { assert StrConv.IsDigit(f[0]); }
    assert FlagError(args, 0).None? && FlagError(args, 1).None? && FlagError(args, 2).None?;
    assert FlagError(args, 3).None? && FlagError(args, 4).None?;
    assert FirstFlagError(args, 1).None? && FirstFlagError(args, 2).None? && FirstFlagError(args, 3).None?;
    assert FirstFlagError(args, 4).None? && FirstFlagError(args, 5).None?;
    assert FlagValues(args, "-back", 1) == [];
    assert FlagValues(args, "-back", 2) == [back];
    assert FlagValues(args, "-back", 3) == [back];
    assert FlagValues(args, "-back", 4) == [back];
    assert FlagValues(args, "-back", 5) == [back];
    assert FlagValues(args, "-forward", 1) == [];
    assert FlagValues(args, "-forward", 2) == [];
    assert FlagValues(args, "-forward", 3) == [];
    assert FlagValues(args, "-forward", 4) == [forward];
    assert FlagValues(args, "-forward", 5) == [forward];
  }

  /** The dates of the window: day i is now + (i - back), for back + forward + 1 days. */
  function WindowDays(now: Day, back: int, forward: int): seq<Day>
  {
    seq(if back + forward >= 0 then back + forward + 1 else 0, i => now + i - back)
  }

  /** The window starts `back` days ago, ends `forward` days ahead, and
      advances by exactly one day at each step. */
  lemma WindowDaysShape(now: Day, back: int, forward: int)
    ensures var dates := WindowDays(now, back, forward);
      && |dates| == (if back + forward >= 0 then back + forward + 1 else 0)
      && (|dates| > 0 ==> dates[0] == now - back && dates[|dates| - 1] == now + forward)
      && (forall i :: 0 <= i < |dates| - 1 ==> dates[i + 1] == dates[i] + 1)
      && (forall i :: 0 <= i < |dates| ==> dates[i] >= dates[0])
  {
  }

  method DateWindow(now: Day, back: int, forward: int) returns (dates: seq<Day>)
    ensures dates == WindowDays(now, back, forward)
  {
    dates := [];
    var period := back + forward;
    var i := 0;
    while i <= period
      invariant 0 <= i && (period >= 0 ==> i <= period + 1)
      invariant period < 0 ==> i == 0
      invariant |dates| == i && forall j :: 0 <= j < i ==> dates[j] == now + j - back
    {
      dates := dates + [now + i - back];
      i := i + 1;
    }
  }

  /** runScraper: configuration, argument parsing, the window, then the run. */
  method RunScraper(cache: DocCache, upstream: Upstream, db: DbFaults, connString: string, args: seq<string>, now: Day)
    returns (err: Option<ScrapeError>)
    modifies cache
    ensures connString == "" ==> err == Some(NoConnString) && cache.rows == old(cache.rows)
    ensures connString != "" && db.connect.Some? ==> err == Some(DbError(db.connect.value)) && cache.rows == old(cache.rows)
    ensures connString != "" && db.connect.None? && ArgsOutcome(args).Failure? ==>
      err == Some(ArgsOutcome(args).error) && cache.rows == old(cache.rows)
    ensures connString != "" && db.connect.None? && ArgsOutcome(args).Success? ==>
      var (back, forward) := ArgsOutcome(args).value;
      Outcome(cache.rows, err) == ScrapeRun(old(cache.rows), upstream, db, WindowDays(now, back, forward), UmnSiteId)
  {
    if connString == "" {
      return Some(NoConnString);
    }
    if db.connect.Some? {
      return Some(DbError(db.connect.value));
    }
    var parsed := ParseArgs(args);
    if parsed.Failure? {
      return Some(parsed.error);
    }
    var (back, forward) := parsed.value;
    var dates := DateWindow(now, back, forward);
    err := ScrapeMenusToDatabase(cache, upstream, db, dates, UmnSiteId);
  }
}
