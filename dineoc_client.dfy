/** The dining-provider client (backend/dineocclient/dineocclient.go).
    Every HTTP request together with its JSON decoding is an oracle of the
    `Provider` record: it answers either with the decoded payload or with the
    transport/decoding error the Go code would pass back unchanged. */
module DineocClient {
  import opened Common

  /** Calendar days as day numbers; date formatting is not modelled. */
  type Day = int

  datatype Restaurant = Restaurant(id: string, name: string)

  datatype FoodBuilding = FoodBuilding(name: string, locations: seq<Restaurant>)

  datatype Meal = Meal(name: string, description: string)

  datatype Menu = Menu(date: Day, periodName: string, options: seq<Meal>)

  /** One-time period ids for one location and date; "" marks an empty slot. */
  datatype PeriodIdSpec = PeriodIdSpec(breakfast: string, dinner: string, lunch: string, everyday: string)

  datatype Period = Period(id: string, name: string)

  datatype Category = Category(items: seq<Meal>)

  datatype MenuPeriod = MenuPeriod(name: string, categories: seq<Category>)

  datatype ClientError =
    | Transport(detail: string)
    | Decode(detail: string)
    | LocationNotFound(locationName: string)
    | InvalidPeriodName(periodName: string)
    | MissingPeriodId

  /** The three endpoints of the provider: the site catalog, the periods of a
      location on a date, and the menu of one period id. */
  datatype Provider = Provider(
    buildings: string -> Result<seq<FoodBuilding>, ClientError>,
    periods: (string, Day) -> Result<seq<Period>, ClientError>,
    menu: (string, Day, string) -> Result<MenuPeriod, ClientError>)

  /** The period names GetMenu accepts, after lower-casing. */
  const CanonicalPeriods: seq<string> := ["breakfast", "lunch", "dinner", "everyday"]

  /** Every location of the catalog, buildings in order, then locations in order. */
  function CatalogLocations(buildings: seq<FoodBuilding>): seq<Restaurant>
  {
    if buildings == [] then []
    else CatalogLocations(buildings[..|buildings| - 1]) + buildings[|buildings| - 1].locations
  }

  // ---------------------------------------------------------------------------
  // Location lookup

  /** Ids of the locations whose lower-cased name is `locationName`, in order. */
  function LocationMatches(locations: seq<Restaurant>, locationName: string): seq<string>
  {
    if locations == [] then []
    else
      var last := locations[|locations| - 1];
      LocationMatches(locations[..|locations| - 1], locationName)
        + (if Lower(last.name) == locationName then [last.id] else [])
  }

  /** Ids of all matching locations of all matching buildings, in catalog order. */
  function CatalogMatches(buildings: seq<FoodBuilding>, buildingName: string, locationName: string): seq<string>
  {
    if buildings == [] then []
    else
      var last := buildings[|buildings| - 1];
      CatalogMatches(buildings[..|buildings| - 1], buildingName, locationName)
        + (if Lower(last.name) == buildingName then LocationMatches(last.locations, locationName) else [])
  }

  /** What GetLocationIdByName answers for a given catalog response. */
  function LookupLocationId(catalog: Result<seq<FoodBuilding>, ClientError>, buildingName: string, locationName: string)
    : Result<string, ClientError>
  {
    match catalog
    case Failure(e) => Failure(e)
    case Success(buildings) =>
      var id := LastOr(CatalogMatches(buildings, Lower(buildingName), Lower(locationName)), "");
      if id == "" then Failure(LocationNotFound(Lower(locationName))) else Success(id)
  }

  /** A location matches when both its building name and its own name equal
      the requested ones after lower-casing. */
  ghost predicate IsMatch(buildings: seq<FoodBuilding>, buildingName: string, locationName: string, i: int, j: int)
  {
    && 0 <= i < |buildings|
    && 0 <= j < |buildings[i].locations|
    && Lower(buildings[i].name) == buildingName
    && Lower(buildings[i].locations[j].name) == locationName
  }

  lemma {:induction false} LocationMatchesMembership(locations: seq<Restaurant>, locationName: string, x: string)
    ensures x in LocationMatches(locations, locationName)
        <==> exists j :: 0 <= j < |locations| && Lower(locations[j].name) == locationName && locations[j].id == x
  {
    if locations != [] {
      var n := |locations| - 1;
      LocationMatchesMembership(locations[..n], locationName, x);
      assert forall j :: 0 <= j < n ==> locations[..n][j] == locations[j];
    }
  }

  /** An id is among the catalog matches exactly when some matching location carries it. */
  lemma {:induction false} CatalogMatchesMembership(buildings: seq<FoodBuilding>, buildingName: string, locationName: string, x: string)
    ensures x in CatalogMatches(buildings, buildingName, locationName)
        <==> exists i, j :: IsMatch(buildings, buildingName, locationName, i, j) && buildings[i].locations[j].id == x
  {
    if buildings != [] {
      var n := |buildings| - 1;
      var last := buildings[n];
      CatalogMatchesMembership(buildings[..n], buildingName, locationName, x);
      LocationMatchesMembership(last.locations, locationName, x);
      assert forall i :: 0 <= i < n ==> buildings[..n][i] == buildings[i];
      if x in CatalogMatches(buildings, buildingName, locationName) {
        if x in CatalogMatches(buildings[..n], buildingName, locationName) {
          var i, j :| IsMatch(buildings[..n], buildingName, locationName, i, j) && buildings[..n][i].locations[j].id == x;
          assert IsMatch(buildings, buildingName, locationName, i, j);
        } else {
          var j :| 0 <= j < |last.locations| && Lower(last.locations[j].name) == locationName && last.locations[j].id == x;
          assert IsMatch(buildings, buildingName, locationName, n, j);
        }
      } else {
        forall i, j | IsMatch(buildings, buildingName, locationName, i, j)
          ensures buildings[i].locations[j].id != x
        {
          if i < n {
            assert IsMatch(buildings[..n], buildingName, locationName, i, j);
          }
        }
      }
    }
  }

  /** The last matching location of a list is found by the location lookup:
      it sits at position j and no matching location comes after it. */
  lemma {:induction false} LocationMatchesLast(locations: seq<Restaurant>, locationName: string) returns (j: nat)
    requires LocationMatches(locations, locationName) != []
    ensures j < |locations| && Lower(locations[j].name) == locationName
    ensures locations[j].id == LastOr(LocationMatches(locations, locationName), "")
    ensures forall k :: j < k < |locations| ==> Lower(locations[k].name) != locationName
  {
    var n := |locations| - 1;
    if Lower(locations[n].name) == locationName {
      j := n;
    } else {
      j := LocationMatchesLast(locations[..n], locationName);
      assert forall k :: j < k < n ==> locations[..n][k] == locations[k];
    }
  }

  /** Because the lookup loop never breaks, the answer is the id of the LAST
      matching location in catalog order (buildings first, then locations):
      location j of building i, with no match after it. */
  lemma {:induction false} CatalogMatchesLast(buildings: seq<FoodBuilding>, buildingName: string, locationName: string)
    returns (i: nat, j: nat)
    requires CatalogMatches(buildings, buildingName, locationName) != []
    ensures IsMatch(buildings, buildingName, locationName, i, j)
    ensures buildings[i].locations[j].id == LastOr(CatalogMatches(buildings, buildingName, locationName), "")
    ensures forall i', j' :: IsMatch(buildings, buildingName, locationName, i', j') ==> i' < i || (i' == i && j' <= j)
  {
    var n := |buildings| - 1;
    var last := buildings[n];
    var tail := if Lower(last.name) == buildingName then LocationMatches(last.locations, locationName) else [];
    assert CatalogMatches(buildings, buildingName, locationName)
      == CatalogMatches(buildings[..n], buildingName, locationName) + tail;
    if tail != [] {
      i := n;
      j := LocationMatchesLast(last.locations, locationName);
      assert IsMatch(buildings, buildingName, locationName, n, j);
    } else {
      i, j := CatalogMatchesLast(buildings[..n], buildingName, locationName);
      NoMatchInLastBuilding(buildings, buildingName, locationName, n);
      MatchesBeforeLast(buildings, buildings[..n], buildingName, locationName, n, i, j);
    }
  }

  /** A last building that contributes no id has no matching location. */
  lemma NoMatchInLastBuilding(buildings: seq<FoodBuilding>, buildingName: string, locationName: string, n: nat)
    requires n == |buildings| - 1
    requires Lower(buildings[n].name) == buildingName ==> LocationMatches(buildings[n].locations, locationName) == []
    ensures forall j :: !IsMatch(buildings, buildingName, locationName, n, j)
  {
    forall j | IsMatch(buildings, buildingName, locationName, n, j)
      ensures false
    {
      LocationMatchesMembership(buildings[n].locations, locationName, buildings[n].locations[j].id);
    }
  }

  /** With no match in the last building, the last match of the earlier
      buildings is the last match of all. */
  lemma MatchesBeforeLast(buildings: seq<FoodBuilding>, earlier: seq<FoodBuilding>, buildingName: string, locationName: string,
                          n: nat, i: int, j: int)
    requires n == |buildings| - 1 && earlier == buildings[..n]
    requires forall j' :: !IsMatch(buildings, buildingName, locationName, n, j')
    requires IsMatch(earlier, buildingName, locationName, i, j)
    requires forall i', j' :: IsMatch(earlier, buildingName, locationName, i', j') ==> i' < i || (i' == i && j' <= j)
    ensures IsMatch(buildings, buildingName, locationName, i, j)
    ensures buildings[i] == earlier[i]
    ensures forall i', j' :: IsMatch(buildings, buildingName, locationName, i', j') ==> i' < i || (i' == i && j' <= j)
  {
    forall i', j' | IsMatch(buildings, buildingName, locationName, i', j')
      ensures i' < i || (i' == i && j' <= j)
    {
      assert i' != n;
      assert IsMatch(earlier, buildingName, locationName, i', j');
    }
  }

  /** A successful lookup returns the non-empty id of the last match; a
      failed catalog fetch is passed through; anything else is "not found". */
  lemma LookupLocationIdOutcome(catalog: Result<seq<FoodBuilding>, ClientError>, buildingName: string, locationName: string)
    ensures catalog.Failure? ==> LookupLocationId(catalog, buildingName, locationName) == Failure(catalog.error)
    ensures LookupLocationId(catalog, buildingName, locationName).Success? ==>
      var id := LookupLocationId(catalog, buildingName, locationName).value;
      && id != ""
      && exists i, j :: IsMatch(catalog.value, Lower(buildingName), Lower(locationName), i, j)
           && catalog.value[i].locations[j].id == id
           && forall i', j' :: IsMatch(catalog.value, Lower(buildingName), Lower(locationName), i', j') ==> i' < i || (i' == i && j' <= j)
    ensures catalog.Success? && (forall i, j :: !IsMatch(catalog.value, Lower(buildingName), Lower(locationName), i, j)) ==>
      LookupLocationId(catalog, buildingName, locationName) == Failure(LocationNotFound(Lower(locationName)))
  {
    if catalog.Success? {
      var ms := CatalogMatches(catalog.value, Lower(buildingName), Lower(locationName));
      if ms != [] {
        var i, j := CatalogMatchesLast(catalog.value, Lower(buildingName), Lower(locationName));
        CatalogMatchesMembership(catalog.value, Lower(buildingName), Lower(locationName), ms[|ms| - 1]);
      }
    }
  }

  /** Names are compared case-insensitively: spellings that lower-case alike
      give the same answer. */
  lemma LookupIgnoresCase(catalog: Result<seq<FoodBuilding>, ClientError>, b1: string, l1: string, b2: string, l2: string)
    requires Lower(b1) == Lower(b2) && Lower(l1) == Lower(l2)
    ensures LookupLocationId(catalog, b1, l1) == LookupLocationId(catalog, b2, l2)
  {
  }

  /** A later match with an empty id hides an earlier match with a real id. */
  lemma EmptyLastIdHidesEarlierMatch()
    ensures LookupLocationId(Success([FoodBuilding("Hall", [Restaurant("L1", "Grill"), Restaurant("", "Grill")])]), "Hall", "Grill")
      == Failure(LocationNotFound("grill"))
  {
    var bs := [FoodBuilding("Hall", [Restaurant("L1", "Grill"), Restaurant("", "Grill")])];
    assert bs[..0] == [];
    assert bs[0].locations[..1][..0] == [];
    assert bs[0].locations[..1] == [Restaurant("L1", "Grill")];
    assert Lower("Grill") == "grill" && Lower("Hall") == "hall";
    assert LocationMatches(bs[0].locations[..1], "grill") == ["L1"];
    assert LocationMatches(bs[0].locations, "grill") == ["L1", ""];
    assert CatalogMatches(bs, "hall", "grill") == ["L1", ""];
  }

  method GetLocationIdByName(provider: Provider, buildingName: string, locationName: string, siteId: string)
    returns (r: Result<string, ClientError>)
    ensures r == LookupLocationId(provider.buildings(siteId), buildingName, locationName)
  {
    var wantBuilding := Lower(buildingName);
    var wantLocation := Lower(locationName);
    var catalog := provider.buildings(siteId);
    if catalog.Failure? {
      return Failure(catalog.error);
    }
    var buildings := catalog.value;
    var locationId := "";
    var i := 0;
    while i < |buildings|
      invariant 0 <= i <= |buildings|
      invariant locationId == LastOr(CatalogMatches(buildings[..i], wantBuilding, wantLocation), "")
    {
      var building := buildings[i];
      assert buildings[..i + 1][..i] == buildings[..i];
      if Lower(building.name) == wantBuilding {
        LastOrAppend(CatalogMatches(buildings[..i], wantBuilding, wantLocation), LocationMatches(building.locations, wantLocation), "");
        locationId := LastMatchingId(building.locations, wantLocation, locationId);
      }
      i := i + 1;
    }
    assert buildings[..i] == buildings;
    if locationId == "" {
      return Failure(LocationNotFound(wantLocation));
    }
    return Success(locationId);
  }

  /** The location loop of one matching building: each location whose
      lower-cased name matches overwrites the id found so far. */
  method LastMatchingId(locations: seq<Restaurant>, wantLocation: string, found: string) returns (id: string)
    ensures id == LastOr(LocationMatches(locations, wantLocation), found)
  {
    id := found;
    var j := 0;
    while j < |locations|
      invariant 0 <= j <= |locations|
      invariant id == LastOr(LocationMatches(locations[..j], wantLocation), found)
    {
      assert locations[..j + 1][..j] == locations[..j];
      if Lower(locations[j].name) == wantLocation {
        id := locations[j].id;
      }
      j := j + 1;
    }
    assert locations[..j] == locations;
  }

  // ---------------------------------------------------------------------------
  // Period ids

  /** Ids of the provider periods whose lower-cased name is `name`, in order. */
  function PeriodIdsNamed(periods: seq<Period>, name: string): seq<string>
  {
    if periods == [] then []
    else
      var last := periods[|periods| - 1];
      PeriodIdsNamed(periods[..|periods| - 1], name) + (if Lower(last.name) == name then [last.id] else [])
  }

  /** The slots getPeriodIds fills: each from the last period of that name,
      the everyday slot from "every day" (with a space). */
  function PeriodIdsOf(periods: seq<Period>): PeriodIdSpec
  {
    PeriodIdSpec(
      breakfast := LastOr(PeriodIdsNamed(periods, "breakfast"), ""),
      dinner := LastOr(PeriodIdsNamed(periods, "dinner"), ""),
      lunch := LastOr(PeriodIdsNamed(periods, "lunch"), ""),
      everyday := LastOr(PeriodIdsNamed(periods, "every day"), ""))
  }

  lemma PeriodIdsNamedSnoc(periods: seq<Period>, p: Period, name: string)
    ensures PeriodIdsNamed(periods + [p], name)
      == PeriodIdsNamed(periods, name) + (if Lower(p.name) == name then [p.id] else [])
  {
    assert (periods + [p])[..|periods|] == periods;
  }

  /** One iteration of the period loop: the slot of the period's lower-cased
      name, if any, takes its id. */
  lemma PeriodIdsStep(periods: seq<Period>, p: Period)
    ensures PeriodIdsOf(periods + [p]) ==
      match Lower(p.name)
      case "breakfast" => PeriodIdsOf(periods).(breakfast := p.id)
      case "lunch" => PeriodIdsOf(periods).(lunch := p.id)
      case "dinner" => PeriodIdsOf(periods).(dinner := p.id)
      case "every day" => PeriodIdsOf(periods).(everyday := p.id)
      case _ => PeriodIdsOf(periods)
  {
    PeriodIdsNamedSnoc(periods, p, "breakfast");
    PeriodIdsNamedSnoc(periods, p, "lunch");
    PeriodIdsNamedSnoc(periods, p, "dinner");
    PeriodIdsNamedSnoc(periods, p, "every day");
  }

  /** A period whose name is none of the four spellings leaves every slot as it was. */
  lemma UnknownPeriodNameIgnored(periods: seq<Period>, p: Period)
    requires Lower(p.name) !in ["breakfast", "lunch", "dinner", "every day"]
    ensures PeriodIdsOf(periods + [p]) == PeriodIdsOf(periods)
  {
    PeriodIdsNamedSnoc(periods, p, "breakfast");
    PeriodIdsNamedSnoc(periods, p, "lunch");
    PeriodIdsNamedSnoc(periods, p, "dinner");
    PeriodIdsNamedSnoc(periods, p, "every day");
  }

  /** The provider's spelling "Everyday" (no space) does not fill the everyday slot. */
  lemma UnspacedEverydayIgnored(periods: seq<Period>, id: string)
    ensures PeriodIdsOf(periods + [Period(id, "Everyday")]) == PeriodIdsOf(periods)
  {
    assert Lower("Everyday") == "everyday";
    UnknownPeriodNameIgnored(periods, Period(id, "Everyday"));
  }

  /** When two periods share a name, the later one's id is kept. */
  lemma LaterPeriodOverwrites(periods: seq<Period>, p: Period)
    ensures Lower(p.name) == "breakfast" ==> PeriodIdsOf(periods + [p]).breakfast == p.id
    ensures Lower(p.name) == "lunch" ==> PeriodIdsOf(periods + [p]).lunch == p.id
    ensures Lower(p.name) == "dinner" ==> PeriodIdsOf(periods + [p]).dinner == p.id
    ensures Lower(p.name) == "every day" ==> PeriodIdsOf(periods + [p]).everyday == p.id
  {
    PeriodIdsNamedSnoc(periods, p, "breakfast");
    PeriodIdsNamedSnoc(periods, p, "lunch");
    PeriodIdsNamedSnoc(periods, p, "dinner");
    PeriodIdsNamedSnoc(periods, p, "every day");
  }

  /** A slot is non-empty only if some period of that name carried that id. */
  lemma {:induction false} PeriodSlotComesFromPeriod(periods: seq<Period>, name: string)
    ensures LastOr(PeriodIdsNamed(periods, name), "") != "" ==>
      exists k :: 0 <= k < |periods| && Lower(periods[k].name) == name
        && periods[k].id == LastOr(PeriodIdsNamed(periods, name), "")
  {
    if periods != [] {
      var n := |periods| - 1;
      PeriodSlotComesFromPeriod(periods[..n], name);
      if Lower(periods[n].name) != name && LastOr(PeriodIdsNamed(periods, name), "") != "" {
        var k :| 0 <= k < n && Lower(periods[..n][k].name) == name
          && periods[..n][k].id == LastOr(PeriodIdsNamed(periods[..n], name), "");
        assert periods[k] == periods[..n][k];
      }
    }
  }

  method GetPeriodIds(provider: Provider, locationId: string, date: Day) returns (r: Result<PeriodIdSpec, ClientError>)
    ensures provider.periods(locationId, date).Failure? ==> r == Failure(provider.periods(locationId, date).error)
    ensures provider.periods(locationId, date).Success? ==> r == Success(PeriodIdsOf(provider.periods(locationId, date).value))
  {
    var response := provider.periods(locationId, date);
    if response.Failure? {
      return Failure(response.error);
    }
    var periods := response.value;
    var ids := PeriodIdSpec("", "", "", "");
    var i := 0;
    while i < |periods|
      invariant 0 <= i <= |periods|
      invariant ids == PeriodIdsOf(periods[..i])
    {
      var p := periods[i];
      assert periods[..i + 1] == periods[..i] + [p];
      PeriodIdsStep(periods[..i], p);
      var name := Lower(p.name);
      if name == "breakfast" {
        ids := ids.(breakfast := p.id);
      } else if name == "lunch" {
        ids := ids.(lunch := p.id);
      } else if name == "dinner" {
        ids := ids.(dinner := p.id);
      } else if name == "every day" {
        ids := ids.(everyday := p.id);
      }
      i := i + 1;
    }
    assert periods[..i] == periods;
    return Success(ids);
  }

  // ---------------------------------------------------------------------------
  // Menus

  /** The switch on the requested period name: None for an invalid name. */
  function SelectPeriodId(ids: PeriodIdSpec, periodName: string): (r: Option<string>)
    ensures r.None? <==> Lower(periodName) !in CanonicalPeriods
  {
    match Lower(periodName)
    case "breakfast" => Some(ids.breakfast)
    case "lunch" => Some(ids.lunch)
    case "dinner" => Some(ids.dinner)
    case "everyday" => Some(ids.everyday)
    case _ => None
  }

  /** All items of all categories, categories in order, items in order. */
  function Flatten(categories: seq<Category>): seq<Meal>
  {
    if categories == [] then []
    else Flatten(categories[..|categories| - 1]) + categories[|categories| - 1].items
  }

  lemma {:induction false} FlattenAppend(a: seq<Category>, b: seq<Category>)
    ensures Flatten(a + b) == Flatten(a) + Flatten(b)
    decreases |b|
  {
    if b == [] {
      assert a + b == a;
    } else {
      var n := |b| - 1;
      assert (a + b)[..|a + b| - 1] == a + b[..n];
      FlattenAppend(a, b[..n]);
    }
  }

  /** A meal is on the flattened menu exactly when some category lists it,
      and the flattened length is the sum of the category sizes. */
  lemma {:induction false} FlattenMembership(categories: seq<Category>, m: Meal)
    ensures m in Flatten(categories) <==> exists i :: 0 <= i < |categories| && m in categories[i].items
  {
    if categories != [] {
      var n := |categories| - 1;
      FlattenMembership(categories[..n], m);
      assert forall i :: 0 <= i < n ==> categories[..n][i] == categories[i];
    }
  }

  function TotalItems(categories: seq<Category>): nat
  {
    if categories == [] then 0 else TotalItems(categories[..|categories| - 1]) + |categories[|categories| - 1].items|
  }

  lemma {:induction false} FlattenLength(categories: seq<Category>)
    ensures |Flatten(categories)| == TotalItems(categories)
  {
    if categories != [] {
      FlattenLength(categories[..|categories| - 1]);
    }
  }

  /** What GetMenu answers, step by step in the order of the Go code. */
  function MenuFor(provider: Provider, buildingName: string, locationName: string, periodName: string, siteId: string, date: Day)
    : Result<Menu, ClientError>
  {
    match LookupLocationId(provider.buildings(siteId), buildingName, locationName)
    case Failure(e) => Failure(e)
    case Success(locationId) =>
      match provider.periods(locationId, date)
      case Failure(e) => Failure(e)
      case Success(periods) =>
        match SelectPeriodId(PeriodIdsOf(periods), periodName)
        case None => Failure(InvalidPeriodName(periodName))
        case Some(periodId) =>
          if periodId == "" then Failure(MissingPeriodId)
          else
            match provider.menu(locationId, date, periodId)
            case Failure(e) => Failure(e)
            case Success(raw) => Success(Menu(date, raw.name, Flatten(raw.categories)))
  }

  method GetMenu(provider: Provider, buildingName: string, locationName: string, periodName: string, siteId: string, date: Day)
    returns (r: Result<Menu, ClientError>)
    ensures r == MenuFor(provider, buildingName, locationName, periodName, siteId, date)
  {
    var location := GetLocationIdByName(provider, buildingName, locationName, siteId);
    if location.Failure? {
      return Failure(location.error);
    }
    var locationId := location.value;
    var periodIds := GetPeriodIds(provider, locationId, date);
    if periodIds.Failure? {
      return Failure(periodIds.error);
    }
    var periodId: string;
    var name := Lower(periodName);
    if name == "breakfast" {
      periodId := periodIds.value.breakfast;
    } else if name == "lunch" {
      periodId := periodIds.value.lunch;
    } else if name == "dinner" {
      periodId := periodIds.value.dinner;
    } else if name == "everyday" {
      periodId := periodIds.value.everyday;
    } else {
      return Failure(InvalidPeriodName(periodName));
    }
    if periodId == "" {
      return Failure(MissingPeriodId);
    }
    var raw := provider.menu(locationId, date, periodId);
    if raw.Failure? {
      return Failure(raw.error);
    }
    var options := FlattenCategories(raw.value.categories);
    return Success(Menu(date, raw.value.name, options));
  }

  /** The category loop of GetMenu: every item appended in order. */
  method FlattenCategories(categories: seq<Category>) returns (options: seq<Meal>)
    ensures options == Flatten(categories)
  {
    options := [];
    var i := 0;
    while i < |categories|
      invariant 0 <= i <= |categories|
      invariant options == Flatten(categories[..i])
    {
      var items := categories[i].items;
      var j := 0;
      while j < |items|
        invariant 0 <= j <= |items|
        invariant options == Flatten(categories[..i]) + items[..j]
      {
        options := options + [items[j]];
        assert items[..j + 1] == items[..j] + [items[j]];
        j := j + 1;
      }
      assert categories[..i + 1][..i] == categories[..i];
      assert items[..j] == items;
      i := i + 1;
    }
    assert categories[..i] == categories;
  }

  /** An invalid period name is rejected once the location and the period
      list are known, whatever the menu endpoint would have answered. */
  lemma InvalidPeriodNameRejected(provider: Provider, other: Provider, buildingName: string, locationName: string,
                                   periodName: string, siteId: string, date: Day)
    requires Lower(periodName) !in CanonicalPeriods
    requires other.buildings == provider.buildings && other.periods == provider.periods
    requires LookupLocationId(provider.buildings(siteId), buildingName, locationName).Success?
    requires provider.periods(LookupLocationId(provider.buildings(siteId), buildingName, locationName).value, date).Success?
    ensures MenuFor(provider, buildingName, locationName, periodName, siteId, date) == Failure(InvalidPeriodName(periodName))
    ensures MenuFor(other, buildingName, locationName, periodName, siteId, date) == Failure(InvalidPeriodName(periodName))
  {
  }

  /** A canonical period that the provider did not publish is an error, not an empty menu. */
  lemma UnpublishedPeriodIsError(provider: Provider, buildingName: string, locationName: string,
                                 periodName: string, siteId: string, date: Day)
    requires LookupLocationId(provider.buildings(siteId), buildingName, locationName).Success?
    requires var locationId := LookupLocationId(provider.buildings(siteId), buildingName, locationName).value;
      && provider.periods(locationId, date).Success?
      && SelectPeriodId(PeriodIdsOf(provider.periods(locationId, date).value), periodName) == Some("")
    ensures MenuFor(provider, buildingName, locationName, periodName, siteId, date) == Failure(MissingPeriodId)
  {
  }

  /** On success the menu carries the requested date, the provider's period
      name, and exactly the meals of the categories in order. */
  lemma MenuSuccessShape(provider: Provider, buildingName: string, locationName: string,
                         periodName: string, siteId: string, date: Day, m: Meal)
    requires MenuFor(provider, buildingName, locationName, periodName, siteId, date).Success?
    ensures var menu := MenuFor(provider, buildingName, locationName, periodName, siteId, date).value;
      var locationId := LookupLocationId(provider.buildings(siteId), buildingName, locationName).value;
      var periodId := SelectPeriodId(PeriodIdsOf(provider.periods(locationId, date).value), periodName).value;
      var raw := provider.menu(locationId, date, periodId).value;
      && Lower(periodName) in CanonicalPeriods
      && periodId != ""
      && menu.date == date
      && menu.periodName == raw.name
      && |menu.options| == TotalItems(raw.categories)
      && (m in menu.options <==> exists i :: 0 <= i < |raw.categories| && m in raw.categories[i].items)
  {
    var locationId := LookupLocationId(provider.buildings(siteId), buildingName, locationName).value;
    var periodId := SelectPeriodId(PeriodIdsOf(provider.periods(locationId, date).value), periodName).value;
    var raw := provider.menu(locationId, date, periodId).value;
    FlattenLength(raw.categories);
    FlattenMembership(raw.categories, m);
  }
}
