/** The daily notifier (notifier/notifier.go): it names every location of
    the site, groups the (user, meal, location, mealtime) matches of the day
    by user, and writes one plain-text message per user. Queries and mail
    delivery are outside the model; their results are parameters. */
module Notifier {
  import opened Common
  import C = DineocClient
  import Scraper

  /** The period text used in the message, indexed by mealtime code. */
  const PeriodText: seq<string> := ["breakfast", "lunch", "dinner", "every day"]

  const Header: string := "Some of your favorite foods are available today!\n\n"
  const NotificationSubject: string := "GopherGrub Notification"

  /** The site id as the notifier spells it: 25 characters, one more than a
      site id has. */
  const SiteIdAsWritten: string := "61d7515eb63f1e0e970debbei"

  /** The site id the notifier is meant to ask for: the one whose menus the
      synchroniser caches. */
  const SiteId: string := Scraper.UmnSiteId

  datatype MealNotification = MealNotification(user: int, meal: string, location: string, mealTime: int)

  datatype Message = Message(from: string, to: string, subject: string, body: string)

  datatype NotifyError =
    | Client(clientError: C.ClientError)
    | InvalidAddress
      /** mealtimeIndexer indexed outside 0..3: a Go runtime panic. */
    | MealtimeOutOfRange(code: int)

  // ---------------------------------------------------------------------------
  // Location names

  function IdNamePairs(locations: seq<C.Restaurant>): seq<(string, string)>
  {
    seq(|locations|, i requires 0 <= i < |locations| => (locations[i].id, locations[i].name))
  }

  /** getLocations: every location id of the catalog mapped to its name. */
  function LocationNamesFor(buildings: string -> Result<seq<C.FoodBuilding>, C.ClientError>, siteId: string)
    : Result<map<string, string>, NotifyError>
  {
    match buildings(siteId)
    case Failure(e) => Failure(Client(e))
    case Success(bs) => Success(LastWins(IdNamePairs(C.CatalogLocations(bs))))
  }

  method GetLocations(buildings: string -> Result<seq<C.FoodBuilding>, C.ClientError>, siteId: string)
    returns (r: Result<map<string, string>, NotifyError>)
    ensures r == LocationNamesFor(buildings, siteId)
  {
    var catalog := buildings(siteId);
    if catalog.Failure? {
      return Failure(Client(catalog.error));
    }
    var bs := catalog.value;
    var names: map<string, string> := map[];
    var i := 0;
    while i < |bs|
      invariant 0 <= i <= |bs|
      invariant names == LastWins(IdNamePairs(C.CatalogLocations(bs[..i])))
    {
      var here := bs[i].locations;
      ghost var before := C.CatalogLocations(bs[..i]);
      assert before + here[..0] == before;
      var j := 0;
      while j < |here|
        invariant 0 <= j <= |here|
        invariant names == LastWins(IdNamePairs(before + here[..j]))
      {
        var location := here[j];
        NamesStep(before, here, j);
        names := names[location.id := location.name];
        j := j + 1;
      }
      assert bs[..i + 1][..i] == bs[..i];
      assert here[..j] == here;
      i := i + 1;
    }
    assert bs[..i] == bs;
    return Success(names);
  }

  lemma NamesStep(before: seq<C.Restaurant>, here: seq<C.Restaurant>, j: nat)
    requires j < |here|
    ensures LastWins(IdNamePairs(before + here[..j + 1]))
      == LastWins(IdNamePairs(before + here[..j]))[here[j].id := here[j].name]
  {
    var prefix := before + here[..j];
    assert before + here[..j + 1] == prefix + [here[j]];
    assert IdNamePairs(prefix + [here[j]]) == IdNamePairs(prefix) + [(here[j].id, here[j].name)];
    LastWinsSnoc(IdNamePairs(prefix), (here[j].id, here[j].name));
  }

  /** Every location id of the catalog is named, and by its last location. */
  lemma LocationNamesMeaning(locations: seq<C.Restaurant>, j: nat)
    requires j < |locations|
    requires forall i :: j < i < |locations| ==> locations[i].id != locations[j].id
    ensures locations[j].id in LastWins(IdNamePairs(locations))
    ensures LastWins(IdNamePairs(locations))[locations[j].id] == locations[j].name
  {
    LastWinsValue(IdNamePairs(locations), j);
  }

  /** Only catalog location ids are named. */
  lemma LocationNamesKeys(locations: seq<C.Restaurant>, id: string)
    ensures id in LastWins(IdNamePairs(locations)) <==> exists l :: l in locations && l.id == id
  {
    LastWinsKeys(IdNamePairs(locations), id);
    if exists l :: l in locations && l.id == id {
      var l :| l in locations && l.id == id;
      var i :| 0 <= i < |locations| && locations[i] == l;
      assert IdNamePairs(locations)[i].0 == id;
    }
  }

  /** With the intended site id, every location the synchroniser caches has
      a name in the notifier's map, so none renders as the empty string. */
  lemma ScrapedLocationsAreNamed(buildings: string -> Result<seq<C.FoodBuilding>, C.ClientError>, l: C.Restaurant)
    requires buildings(Scraper.UmnSiteId).Success?
    requires l in Scraper.AllowListed(C.CatalogLocations(buildings(Scraper.UmnSiteId).value))
    ensures LocationNamesFor(buildings, SiteId).Success?
    ensures l.id in LocationNamesFor(buildings, SiteId).value
  {
    Scraper.AllowListedMembership(C.CatalogLocations(buildings(Scraper.UmnSiteId).value), l);
    LocationNamesKeys(C.CatalogLocations(buildings(Scraper.UmnSiteId).value), l.id);
  }

  const ComstockHall: C.Restaurant := C.Restaurant("hall-1", "Comstock Dining Hall")

  /** A provider that knows only the synchroniser's site, where one building
      holds Comstock Dining Hall. */
  function OnlyScrapedSite(s: string): Result<seq<C.FoodBuilding>, C.ClientError>
  {
    if s == Scraper.UmnSiteId then Success([C.FoodBuilding("Comstock", [ComstockHall])])
    else Failure(C.Transport("unknown site"))
  }

  /** The site id as written is not the synchroniser's: a provider that knows
      only the synchroniser's site answers the notifier with an error while
      the synchroniser caches a hall there. */
  lemma SiteIdAsWrittenMissesScrapedSite()
    ensures |SiteIdAsWritten| == 25 && |Scraper.UmnSiteId| == 24
    ensures Scraper.LocationsToScrape(OnlyScrapedSite(Scraper.UmnSiteId)) == Success([ComstockHall])
    ensures LocationNamesFor(OnlyScrapedSite, SiteIdAsWritten).Failure?
  {
    SiteIdLengths();
    ComstockIsScraped();
  }

  lemma SiteIdLengths()
    ensures |SiteIdAsWritten| == 25 && |Scraper.UmnSiteId| == 24
  {
  }

  /** The one catalog location at the synchroniser's site is allow-listed. */
  lemma ComstockIsScraped()
    ensures Scraper.AllowListed(C.CatalogLocations([C.FoodBuilding("Comstock", [ComstockHall])])) == [ComstockHall]
  {
    var bs := [C.FoodBuilding("Comstock", [ComstockHall])];
    assert bs[..0] == [];
    assert C.CatalogLocations(bs) == [ComstockHall];
    assert ComstockHall.name in Scraper.HallsToScrape by {
      assert Scraper.HallsToScrape[0] == ComstockHall.name;
    }
    assert [] + [ComstockHall] == [ComstockHall];
    Scraper.AllowListedSnoc([], ComstockHall);
  }

  // ---------------------------------------------------------------------------
  // Email table and grouping

  /** The user-id-to-email loop: the last row for a user wins. */
  method BuildEmailTable(rows: seq<(int, string)>) returns (emails: map<int, string>)
    ensures emails == LastWins(rows)
  {
    emails := map[];
    var i := 0;
    while i < |rows|
      invariant 0 <= i <= |rows|
      invariant emails == LastWins(rows[..i])
    {
      assert rows[..i + 1] == rows[..i] + [rows[i]];
      LastWinsSnoc(rows[..i], rows[i]);
      emails := emails[rows[i].0 := rows[i].1];
      i := i + 1;
    }
    assert rows[..i] == rows;
  }

  /** The rows of one user, in row order. */
  function ForUser(rows: seq<MealNotification>, u: int): seq<MealNotification>
  {
    if rows == [] then []
    else
      var last := rows[|rows| - 1];
      ForUser(rows[..|rows| - 1], u) + (if last.user == u then [last] else [])
  }

  function UsersOf(rows: seq<MealNotification>): set<int>
  {
    set n | n in rows :: n.user
  }

  /** The notification table: each user with a row, mapped to their rows. */
  function Grouped(rows: seq<MealNotification>): map<int, seq<MealNotification>>
  {
    map u | u in UsersOf(rows) :: ForUser(rows, u)
  }

  lemma {:induction false} ForUserAbsent(rows: seq<MealNotification>, u: int)
    requires u !in UsersOf(rows)
    ensures ForUser(rows, u) == []
  {
    if rows != [] {
      var n := |rows| - 1;
      assert rows[n] in rows;
      assert UsersOf(rows[..n]) <= UsersOf(rows);
      ForUserAbsent(rows[..n], u);
    }
  }

  lemma GroupedSnoc(rows: seq<MealNotification>, n: MealNotification)
    ensures Grouped(rows + [n])
      == Grouped(rows)[n.user := (if n.user in Grouped(rows) then Grouped(rows)[n.user] else []) + [n]]
  {
    var rows' := rows + [n];
    assert rows'[..|rows|] == rows;
    assert UsersOf(rows') == UsersOf(rows) + {n.user};
    if n.user !in UsersOf(rows) {
      ForUserAbsent(rows, n.user);
    }
    var rhs := Grouped(rows)[n.user := (if n.user in Grouped(rows) then Grouped(rows)[n.user] else []) + [n]];
    assert Grouped(rows').Keys == rhs.Keys;
    forall u | u in rhs ensures Grouped(rows')[u] == rhs[u] {
      assert ForUser(rows', u) == ForUser(rows, u) + (if n.user == u then [n] else []);
    }
  }

  /** The grouping loop: append each row to its user's list. */
  method GroupByUser(rows: seq<MealNotification>) returns (table: map<int, seq<MealNotification>>)
    ensures table == Grouped(rows)
  {
    table := map[];
    var i := 0;
    while i < |rows|
      invariant 0 <= i <= |rows|
      invariant table == Grouped(rows[..i])
    {
      var n := rows[i];
      assert rows[..i + 1] == rows[..i] + [n];
      GroupedSnoc(rows[..i], n);
      table := table[n.user := (if n.user in table then table[n.user] else []) + [n]];
      i := i + 1;
    }
    assert rows[..i] == rows;
  }

  lemma {:induction false} ForUserMembership(rows: seq<MealNotification>, u: int, n: MealNotification)
    ensures n in ForUser(rows, u) <==> n in rows && n.user == u
  {
    if rows != [] {
      var k := |rows| - 1;
      ForUserMembership(rows[..k], u, n);
      assert rows == rows[..k] + [rows[k]];
    }
  }

  /** A user has a list exactly when a row is theirs, and the list holds
      exactly their rows. */
  lemma GroupedMembership(rows: seq<MealNotification>, u: int, n: MealNotification)
    ensures u in Grouped(rows) <==> exists m :: m in rows && m.user == u
    ensures u in Grouped(rows) ==> (n in Grouped(rows)[u] <==> n in rows && n.user == u)
  {
    ForUserMembership(rows, u, n);
  }

  /** The users of the rows, each once, in order of first appearance. */
  function UserOrder(rows: seq<MealNotification>): seq<int>
  {
    if rows == [] then []
    else
      var seen := UserOrder(rows[..|rows| - 1]);
      var u := rows[|rows| - 1].user;
      if u in seen then seen else seen + [u]
  }

  lemma {:induction false} UserOrderCovers(rows: seq<MealNotification>)
    ensures Distinct(UserOrder(rows))
    ensures forall u :: u in UserOrder(rows) <==> u in UsersOf(rows)
  {
    if rows != [] {
      var k := |rows| - 1;
      UserOrderCovers(rows[..k]);
      assert rows == rows[..k] + [rows[k]];
      assert UsersOf(rows) == UsersOf(rows[..k]) + {rows[k].user};
    }
  }

  /** The lengths of the lists of the given users, added up. */
  function SumLengths(table: map<int, seq<MealNotification>>, users: seq<int>): nat
    requires forall i :: 0 <= i < |users| ==> users[i] in table
  {
    if users == [] then 0
    else SumLengths(table, users[..|users| - 1]) + |table[users[|users| - 1]]|
  }

  /** Replacing one list changes the sum by the difference in its length. */
  lemma {:induction false} SumLengthsUpdate(table: map<int, seq<MealNotification>>, users: seq<int>, x: int, v: seq<MealNotification>)
    requires Distinct(users)
    requires forall i :: 0 <= i < |users| ==> users[i] in table
    ensures SumLengths(table[x := v], users) + (if x in users then |table[x]| else 0)
         == SumLengths(table, users) + (if x in users then |v| else 0)
  {
    if users != [] {
      var k := |users| - 1;
      assert Distinct(users[..k]);
      SumLengthsUpdate(table, users[..k], x, v);
      assert users == users[..k] + [users[k]];
    }
  }

  /** Nothing is lost or duplicated: the users' lists, taken once each, add up
      to the number of rows. */
  lemma {:induction false} GroupedTotal(rows: seq<MealNotification>)
    ensures forall i :: 0 <= i < |UserOrder(rows)| ==> UserOrder(rows)[i] in Grouped(rows)
    ensures SumLengths(Grouped(rows), UserOrder(rows)) == |rows|
  {
    UserOrderCovers(rows);
    if rows != [] {
      var k := |rows| - 1;
      var prefix := rows[..k];
      var n := rows[k];
      assert rows == prefix + [n];
      GroupedTotal(prefix);
      GroupedSnoc(prefix, n);
      UserOrderCovers(prefix);
      var g := Grouped(prefix);
      var v := (if n.user in g then g[n.user] else []) + [n];
      var seen := UserOrder(prefix);
      SumLengthsUpdate(g, seen, n.user, v);
      if n.user !in seen {
        assert UserOrder(rows) == seen + [n.user];
        assert (seen + [n.user])[..|seen|] == seen;
      }
    }
  }

  // ---------------------------------------------------------------------------
  // Message text

  /** One line of the message; a location missing from the map is named "". */
  function Line(n: MealNotification, names: map<string, string>): string
    requires 0 <= n.mealTime < |PeriodText|
  {
    "- " + n.meal + " at " + (if n.location in names then names[n.location] else "")
      + " during " + PeriodText[n.mealTime] + " time.\n"
  }

  /** The message body: the header, then one line per notification in list
      order, failing at the first mealtime code outside 0..3. */
  function Body(notifs: seq<MealNotification>, names: map<string, string>): Result<string, NotifyError>
  {
    if notifs == [] then Success(Header)
    else
      var last := notifs[|notifs| - 1];
      match Body(notifs[..|notifs| - 1], names)
      case Failure(e) => Failure(e)
      case Success(text) =>
        if 0 <= last.mealTime < |PeriodText| then Success(text + Line(last, names))
        else Failure(MealtimeOutOfRange(last.mealTime))
  }

  method MessageBody(notifs: seq<MealNotification>, names: map<string, string>) returns (r: Result<string, NotifyError>)
    ensures r == Body(notifs, names)
  {
    var text := Header;
    var i := 0;
    while i < |notifs|
      invariant 0 <= i <= |notifs|
      invariant Body(notifs[..i], names) == Success(text)
    {
      var n := notifs[i];
      assert notifs[..i + 1][..i] == notifs[..i];
      if !(0 <= n.mealTime < |PeriodText|) {
        FirstBadCodeFails(notifs, names, i + 1);
        assert notifs[..i + 1] <= notifs;
        return Failure(MealtimeOutOfRange(n.mealTime));
      }
      text := text + Line(n, names);
      i := i + 1;
    }
    assert notifs[..i] == notifs;
    return Success(text);
  }

  /** Once a prefix fails, the whole body fails the same way. */
  lemma {:induction false} FirstBadCodeFails(notifs: seq<MealNotification>, names: map<string, string>, m: nat)
    requires m <= |notifs|
    requires Body(notifs[..m], names).Failure?
    ensures Body(notifs, names) == Body(notifs[..m], names)
    decreases |notifs| - m
  {
    if m < |notifs| {
      var k := |notifs| - 1;
      assert notifs[..k][..m] == notifs[..m];
      FirstBadCodeFails(notifs[..k], names, m);
    } else {
      assert notifs[..m] == notifs;
    }
  }

  /** The body is written exactly when every mealtime code is in 0..3. */
  lemma {:induction false} BodySucceeds(notifs: seq<MealNotification>, names: map<string, string>)
    ensures Body(notifs, names).Success? <==> forall i :: 0 <= i < |notifs| ==> 0 <= notifs[i].mealTime < |PeriodText|
  {
    if notifs != [] {
      var k := |notifs| - 1;
      BodySucceeds(notifs[..k], names);
      assert forall i :: 0 <= i < k ==> notifs[..k][i] == notifs[i];
    }
  }

  function NewlineCount(s: string): nat
  {
    if s == [] then 0 else NewlineCount(s[..|s| - 1]) + (if s[|s| - 1] == '\n' then 1 else 0)
  }

  lemma {:induction false} NewlineCountAppend(a: string, b: string)
    ensures NewlineCount(a + b) == NewlineCount(a) + NewlineCount(b)
    decreases |b|
  {
    if b == [] {
      assert a + b == a;
    } else {
      var k := |b| - 1;
      assert a + b == (a + b[..k]) + [b[k]];
      assert (a + b)[..|a| + k] == a + b[..k];
      NewlineCountAppend(a, b[..k]);
    }
  }

  lemma {:induction false} NoNewlineCount(s: string)
    requires forall i :: 0 <= i < |s| ==> s[i] != '\n'
    ensures NewlineCount(s) == 0
  {
    if s != [] {
      NoNewlineCount(s[..|s| - 1]);
    }
  }

  predicate SingleLine(s: string)
  {
    forall i :: 0 <= i < |s| ==> s[i] != '\n'
  }

  /** A line has one line break when its meal and location name have none. */
  lemma LineBreaks(n: MealNotification, names: map<string, string>)
    requires 0 <= n.mealTime < |PeriodText|
    requires SingleLine(n.meal)
    requires n.location in names ==> SingleLine(names[n.location])
    ensures NewlineCount(Line(n, names)) == 1
  {
    var place := if n.location in names then names[n.location] else "";
    var stem := "- " + n.meal + " at " + place + " during " + PeriodText[n.mealTime] + " time.";
    assert Line(n, names) == stem + "\n";
    assert SingleLine(PeriodText[n.mealTime]);
    assert SingleLine(stem);
    NoNewlineCount(stem);
    NewlineCountAppend(stem, "\n");
    assert NewlineCount("\n") == NewlineCount([]) + 1;
  }

  /** One line per notification: when no meal or location name contains a
      line break, the body has the header's line breaks plus one per
      notification, and it starts with the header. */
  lemma {:induction false} BodyLineCount(notifs: seq<MealNotification>, names: map<string, string>)
    requires Body(notifs, names).Success?
    requires forall i :: 0 <= i < |notifs| ==> SingleLine(notifs[i].meal)
    requires forall id :: id in names ==> SingleLine(names[id])
    ensures NewlineCount(Body(notifs, names).value) == NewlineCount(Header) + |notifs|
    ensures Header <= Body(notifs, names).value
  {
    if notifs != [] {
      var k := |notifs| - 1;
      var n := notifs[k];
      assert forall i :: 0 <= i < k ==> notifs[..k][i] == notifs[i];
      BodyLineCount(notifs[..k], names);
      var text := Body(notifs[..k], names).value;
      LineBreaks(n, names);
      NewlineCountAppend(text, Line(n, names));
    }
  }

  // ---------------------------------------------------------------------------
  // Messages

  /** What generateMessages needs of one user: a sender and recipient the
      mail library accepts, and a body it can write. */
  predicate UserReady(notifs: seq<MealNotification>, to: string, names: map<string, string>,
                      from: string, validAddress: string -> bool)
  {
    validAddress(from) && validAddress(to) && Body(notifs, names).Success?
  }

  function EmailOf(emails: map<int, string>, u: int): string
  {
    if u in emails then emails[u] else ""
  }

  ghost predicate Distinct(users: seq<int>)
  {
    forall i, j :: 0 <= i < j < |users| ==> users[i] != users[j]
  }

  /** order lists every key of the table exactly once. */
  ghost predicate Enumerates(order: seq<int>, keys: set<int>)
  {
    Distinct(order) && forall u :: u in order <==> u in keys
  }

  lemma {:induction false} EnumerationLength(order: seq<int>, keys: set<int>)
    requires Enumerates(order, keys)
    ensures |order| == |keys|
  {
    if order != [] {
      var k := |order| - 1;
      var x := order[k];
      assert x in order;
      var rest := keys - {x};
      assert Enumerates(order[..k], rest) by {
        assert order == order[..k] + [x];
        forall u | u in order[..k] ensures u != x {
          var i :| 0 <= i < k && order[i] == u;
        }
      }
      EnumerationLength(order[..k], rest);
      assert keys == rest + {x};
      assert x !in rest;
    } else {
      forall u ensures u !in keys {
        assert u !in order;
      }
      assert keys == {};
    }
  }

  /** The message for user u. */
  function MessageFor(table: map<int, seq<MealNotification>>, emails: map<int, string>, names: map<string, string>,
                      from: string, u: int): Message
    requires u in table && Body(table[u], names).Success?
  {
    Message(from, EmailOf(emails, u), NotificationSubject, Body(table[u], names).value)
  }

  /** messages[i] is the message of the ready user order[i]. */
  ghost predicate MessagesFor(messages: seq<Message>, order: seq<int>, table: map<int, seq<MealNotification>>,
                              emails: map<int, string>, names: map<string, string>, from: string, validAddress: string -> bool)
  {
    && |order| == |messages|
    && forall i :: 0 <= i < |order| ==>
         && order[i] in table
         && UserReady(table[order[i]], EmailOf(emails, order[i]), names, from, validAddress)
         && messages[i] == MessageFor(table, emails, names, from, order[i])
  }

  /** Every user of the table can be sent a message. */
  ghost predicate AllReady(table: map<int, seq<MealNotification>>, emails: map<int, string>,
                           names: map<string, string>, from: string, validAddress: string -> bool)
  {
    forall u :: u in table ==> UserReady(table[u], EmailOf(emails, u), names, from, validAddress)
  }

  /** One more ready user extends the messages by that user's message. */
  lemma MessagesForSnoc(messages: seq<Message>, order: seq<int>, table: map<int, seq<MealNotification>>,
                        emails: map<int, string>, names: map<string, string>, from: string, validAddress: string -> bool, u: int)
    requires MessagesFor(messages, order, table, emails, names, from, validAddress)
    requires u in table && UserReady(table[u], EmailOf(emails, u), names, from, validAddress)
    ensures MessagesFor(messages + [MessageFor(table, emails, names, from, u)], order + [u], table, emails, names, from, validAddress)
  {
  }

  /** Messages for a whole enumeration of the table: one per user, and every
      user was ready. */
  lemma AllUsersReady(messages: seq<Message>, iteration: seq<int>, table: map<int, seq<MealNotification>>,
                      emails: map<int, string>, names: map<string, string>, from: string, validAddress: string -> bool)
    requires Enumerates(iteration, table.Keys)
    requires MessagesFor(messages, iteration, table, emails, names, from, validAddress)
    ensures |messages| == |table|
    ensures AllReady(table, emails, names, from, validAddress)
  {
    EnumerationLength(iteration, table.Keys);
    forall u | u in table ensures UserReady(table[u], EmailOf(emails, u), names, from, validAddress) {
      var j :| 0 <= j < |iteration| && iteration[j] == u;
    }
  }

  /** generateMessages: one message per user of the table, in the map's
      iteration order (which Go leaves unspecified and the model takes as a
      parameter); the first user that is not ready stops it. The site whose
      locations name the menus is a parameter: the code as written passes
      SiteIdAsWritten, the intended call passes SiteId. */
  method GenerateMessages(buildings: string -> Result<seq<C.FoodBuilding>, C.ClientError>,
                          table: map<int, seq<MealNotification>>, emails: map<int, string>,
                          from: string, validAddress: string -> bool, iteration: seq<int>, siteId: string)
    returns (r: Result<seq<Message>, NotifyError>)
    requires Enumerates(iteration, table.Keys)
    ensures LocationNamesFor(buildings, siteId).Failure? ==> r == Failure(LocationNamesFor(buildings, siteId).error)
    ensures LocationNamesFor(buildings, siteId).Success? ==>
      var names := LocationNamesFor(buildings, siteId).value;
      && (r.Success? <==> AllReady(table, emails, names, from, validAddress))
      && (r.Success? ==>
          && |r.value| == |table|
          && MessagesFor(r.value, iteration, table, emails, names, from, validAddress))
  {
    var located := GetLocations(buildings, siteId);
    if located.Failure? {
      return Failure(located.error);
    }
    var names := located.value;
    var messages: seq<Message> := [];
    var i := 0;
    while i < |iteration|
      invariant 0 <= i <= |iteration|
      invariant MessagesFor(messages, iteration[..i], table, emails, names, from, validAddress)
    {
      var u := iteration[i];
      assert u in table by { assert u in iteration; }
      var to := EmailOf(emails, u);
      if !validAddress(from) || !validAddress(to) {
        assert !UserReady(table[u], to, names, from, validAddress);
        return Failure(InvalidAddress);
      }
      var body := MessageBody(table[u], names);
      if body.Failure? {
        assert !UserReady(table[u], to, names, from, validAddress);
        return Failure(body.error);
      }
      MessagesForSnoc(messages, iteration[..i], table, emails, names, from, validAddress, u);
      messages := messages + [Message(from, to, NotificationSubject, body.value)];
      assert iteration[..i + 1] == iteration[..i] + [u];
      i := i + 1;
    }
    assert iteration[..i] == iteration;
    AllUsersReady(messages, iteration, table, emails, names, from, validAddress);
    return Success(messages);
  }
}
