/** The web backend's database layer (backend/db.go): the read side of the
    menu cache, user preferences, and the Users table. The tables are
    in-memory sequences; what the database can fail at is passed in. */
module BackendDb {
  import opened Common
  import opened CacheTable
  import Scraper

  /** Period names as the backend stores them: case-sensitive keys. */
  const PeriodNameToNum: map<string, int> := map["breakfast" := 0, "lunch" := 1, "dinner" := 2, "everyday" := 3]

  /** The read side and the write side number the periods the same way: the
      keys are exactly the scraper's period names, each mapped to its index. */
  lemma PeriodNumbersAgree()
    ensures forall name :: name in PeriodNameToNum <==> name in Scraper.MealtimeIndexer
    ensures forall i :: 0 <= i < |Scraper.MealtimeIndexer| ==> PeriodNameToNum[Scraper.MealtimeIndexer[i]] == i
    ensures forall a, b :: a in PeriodNameToNum && b in PeriodNameToNum && PeriodNameToNum[a] == PeriodNameToNum[b] ==> a == b
    ensures forall name :: name in PeriodNameToNum ==> Scraper.PeriodCode(name) == Some(PeriodNameToNum[name])
  {
    Scraper.IndexerCodes();
  }

  /** The scraper lower-cases period names but the backend does not: every
      name the scraper would accept with a capital letter in it, such as
      "Lunch", is refused by the read side. */
  lemma CapitalisedNameRefusedOnRead(name: string)
    ensures Scraper.PeriodCode("Lunch") == Some(1) && "Lunch" !in PeriodNameToNum
    ensures Scraper.PeriodCode(name).Some? && name != Lower(name) ==> name !in PeriodNameToNum
  {
    assert Lower("Lunch") == "lunch";
    if name in PeriodNameToNum {
      assert name in Scraper.MealtimeIndexer by { PeriodNumbersAgree(); }
      LowerOfLowercase(name);
    }
  }

  /** A name with no upper-case letter is its own lower-casing. */
  lemma LowerOfLowercase(name: string)
    requires forall i :: 0 <= i < |name| ==> !IsUpper(name[i])
    ensures Lower(name) == name
  {
  }

  datatype MealWithPreference = MealWithPreference(meal: string, isPreferred: bool, id: string)

  datatype DbError =
    | ErrInvalidPeriodName
    | ErrEmailInUse
    | QueryFailed(detail: string)
    | InsertFailed(detail: string)

  /** Each selected cache row as a menu entry, not (yet) marked preferred. */
  function AsMenu(rows: seq<Row>): seq<MealWithPreference>
  {
    seq(|rows|, i requires 0 <= i < |rows| => MealWithPreference(rows[i].meal, false, rows[i].mealid))
  }

  /** GetCacheMenu: reject an unknown period name before any query, then
      select the rows of (date, location, period code). */
  function GetCacheMenu(rows: seq<Row>, locationId: string, periodName: string, date: Day, queryFault: Option<string>)
    : (r: Result<seq<MealWithPreference>, DbError>)
    ensures periodName !in PeriodNameToNum ==> r == Failure(ErrInvalidPeriodName)
    ensures periodName in PeriodNameToNum && queryFault.Some? ==> r == Failure(QueryFailed(queryFault.value))
    ensures r.Success? ==> forall m :: m in r.value ==> !m.isPreferred
  {
    if periodName !in PeriodNameToNum then Failure(ErrInvalidPeriodName)
    else if queryFault.Some? then Failure(QueryFailed(queryFault.value))
    else Success(AsMenu(RowsAt(rows, CellKey(date, locationId, PeriodNameToNum[periodName]))))
  }

  /** An entry is on the menu exactly when a row with the same day, location
      and period code carries that meal and meal id. */
  lemma GetCacheMenuMembership(rows: seq<Row>, locationId: string, periodName: string, date: Day, m: MealWithPreference)
    requires periodName in PeriodNameToNum
    ensures var r := GetCacheMenu(rows, locationId, periodName, date, None);
      m in r.value <==>
        !m.isPreferred && Row(date, locationId, PeriodNameToNum[periodName], m.meal, m.id) in rows
  {
    var k := CellKey(date, locationId, PeriodNameToNum[periodName]);
    var sel := RowsAt(rows, k);
    WhereMembership(rows, KeyIs(k), Row(date, locationId, PeriodNameToNum[periodName], m.meal, m.id));
    if m in AsMenu(sel) {
      var i :| 0 <= i < |sel| && AsMenu(sel)[i] == m;
      assert sel[i] in sel;
      WhereMembership(rows, KeyIs(k), sel[i]);
    }
    if !m.isPreferred && Row(date, locationId, PeriodNameToNum[periodName], m.meal, m.id) in rows {
      var row := Row(date, locationId, PeriodNameToNum[periodName], m.meal, m.id);
      var i :| 0 <= i < |sel| && sel[i] == row;
      assert AsMenu(sel)[i] == m;
    }
  }

  /** Reading a cell right after the synchroniser refreshed it returns the
      fetched meals, in fetch order. */
  lemma ReadAfterRefresh(rows: seq<Row>, locationId: string, periodName: string, date: Day, meals: seq<CachedMeal>)
    requires periodName in PeriodNameToNum
    ensures var k := CellKey(date, locationId, PeriodNameToNum[periodName]);
      GetCacheMenu(ReplaceCell(rows, k, meals), locationId, periodName, date, None)
        == Success(FetchedMenu(meals))
  {
    var k := CellKey(date, locationId, PeriodNameToNum[periodName]);
    ReplaceCellAtKey(rows, k, meals);
    var cell := CellRows(k, meals);
    assert GetCacheMenu(ReplaceCell(rows, k, meals), locationId, periodName, date, None) == Success(AsMenu(cell));
    assert AsMenu(cell) == FetchedMenu(meals);
  }

  /** The fetched meals as menu entries, in fetch order. */
  function FetchedMenu(meals: seq<CachedMeal>): seq<MealWithPreference>
  {
    seq(|meals|, i requires 0 <= i < |meals| => MealWithPreference(meals[i].name, false, meals[i].id))
  }

  // ---------------------------------------------------------------------------
  // Preferences

  datatype Preference = Preference(user: int, preference: string)

  /** How the preference query came back. */
  datatype QueryStatus = Rows | NoRows | Failed(detail: string)

  /** The preference column of the user's rows, in table order. */
  function PreferencesOf(table: seq<Preference>, uid: int): seq<string>
  {
    if table == [] then []
    else
      var last := table[|table| - 1];
      PreferencesOf(table[..|table| - 1], uid) + (if last.user == uid then [last.preference] else [])
  }

  /** The map GetUserPrefs builds: every preference of the user, set to true. */
  function PrefsMap(prefs: seq<string>): map<string, bool>
  {
    map p | p in prefs :: true
  }

  method GetUserPrefs(table: seq<Preference>, uid: int, status: QueryStatus) returns (r: Result<map<string, bool>, DbError>)
    ensures status.Failed? ==> r == Failure(QueryFailed(status.detail))
    ensures status.NoRows? ==> r == Success(map[])
    ensures status.Rows? ==> r == Success(PrefsMap(PreferencesOf(table, uid)))
  {
    var prefs: map<string, bool> := map[];
    if status.NoRows? {
      return Success(prefs);
    } else if status.Failed? {
      return Failure(QueryFailed(status.detail));
    }
    var selected := PreferencesOf(table, uid);
    var i := 0;
    while i < |selected|
      invariant 0 <= i <= |selected|
      invariant prefs == PrefsMap(selected[..i])
    {
      assert selected[..i + 1] == selected[..i] + [selected[i]];
      prefs := prefs[selected[i] := true];
      i := i + 1;
    }
    assert selected[..i] == selected;
    return Success(prefs);
  }

  lemma {:induction false} PreferencesOfMembership(table: seq<Preference>, uid: int, p: string)
    ensures p in PreferencesOf(table, uid) <==> Preference(uid, p) in table
  {
    if table != [] {
      var n := |table| - 1;
      PreferencesOfMembership(table[..n], uid, p);
      assert table == table[..n] + [table[n]];
    }
  }

  /** p maps to true exactly when the user has a preference row for p, and no
      key ever maps to false. */
  lemma UserPrefsMeaning(table: seq<Preference>, uid: int, p: string)
    ensures p in PrefsMap(PreferencesOf(table, uid)) <==> Preference(uid, p) in table
    ensures p in PrefsMap(PreferencesOf(table, uid)) ==> PrefsMap(PreferencesOf(table, uid))[p]
  {
    PreferencesOfMembership(table, uid, p);
  }

  // ---------------------------------------------------------------------------
  // Users

  type Bytes = seq<bv8>

  datatype User = User(id: int, email: string, password: Bytes, displayName: string)

  /** The Users table with its serial id counter. */
  class UserStore {
    var users: seq<User>
    var nextId: int

    /** Ids are below the counter and distinct; emails are distinct. */
    ghost predicate Valid()
      reads this
    {
      && (forall i :: 0 <= i < |users| ==> users[i].id < nextId)
      && (forall i, j :: 0 <= i < j < |users| ==> users[i].id != users[j].id && users[i].email != users[j].email)
    }

    constructor ()
      ensures users == [] && nextId == 1
      ensures Valid()
    {
      users := [];
      nextId := 1;
    }

    /** SELECT EXISTS (... WHERE email = $1). */
    function EmailExists(email: string, fault: Option<string>): (r: Result<bool, DbError>)
      reads this
      ensures fault.Some? ==> r == Failure(QueryFailed(fault.value))
      ensures fault.None? ==> r == Success(GetByEmail(email, None).value.Some?)
    {
      if fault.Some? then Failure(QueryFailed(fault.value))
      else
        var present := exists i :: 0 <= i < |users| && users[i].email == email;
        assert present <==> exists u :: u in users && u.email == email;
        Success(present)
    }

    /** Check, then insert: an email already present is refused and nothing is
        inserted; otherwise one row is appended and its id returned. */
    method AddNewUser(email: string, password: Bytes, displayName: string, existsFault: Option<string>, insertFault: Option<string>)
      returns (id: int, err: Option<DbError>)
      requires Valid()
      modifies this
      ensures Valid()
      ensures existsFault.Some? ==>
        id == -1 && err == Some(QueryFailed(existsFault.value)) && users == old(users) && nextId == old(nextId)
      ensures existsFault.None? && old(EmailExists(email, None)) == Success(true) ==>
        id == -1 && err == Some(ErrEmailInUse) && users == old(users) && nextId == old(nextId)
      ensures existsFault.None? && old(EmailExists(email, None)) == Success(false) && insertFault.Some? ==>
        id == -1 && err == Some(InsertFailed(insertFault.value)) && users == old(users) && nextId == old(nextId)
      ensures existsFault.None? && old(EmailExists(email, None)) == Success(false) && insertFault.None? ==>
        && err == None && id == old(nextId)
        && users == old(users) + [User(id, email, password, displayName)] && nextId == old(nextId) + 1
    {
      var taken := EmailExists(email, existsFault);
      if taken.Failure? {
        return -1, Some(taken.error);
      }
      if taken.value {
        return -1, Some(ErrEmailInUse);
      }
      if insertFault.Some? {
        return -1, Some(InsertFailed(insertFault.value));
      }
      id := nextId;
      users := users + [User(id, email, password, displayName)];
      nextId := nextId + 1;
      err := None;
    }

    /** SELECT ... WHERE email = $1: the first matching row, or no user and
        no error when none matches. */
    function GetByEmail(email: string, fault: Option<string>): (r: Result<Option<User>, DbError>)
      reads this
      ensures fault.Some? ==> r == Failure(QueryFailed(fault.value))
      ensures fault.None? && (forall u :: u in users ==> u.email != email) ==> r == Success(None)
      ensures r.Success? && r.value.Some? ==> r.value.value in users && r.value.value.email == email
      ensures fault.None? && (exists u :: u in users && u.email == email) ==> r.Success? && r.value.Some?
    {
      if fault.Some? then Failure(QueryFailed(fault.value))
      else Success(FirstWithEmail(users, email))
    }
  }

  function FirstWithEmail(users: seq<User>, email: string): (r: Option<User>)
    ensures r.None? <==> forall u :: u in users ==> u.email != email
    ensures r.Some? ==> r.value in users && r.value.email == email
  {
    if users == [] then None
    else if users[0].email == email then Some(users[0])
    else FirstWithEmail(users[1..], email)
  }

  /** A user added with a fresh email is the one found by that email. */
  lemma {:induction false} FindAddedUser(users: seq<User>, u: User)
    requires forall v :: v in users ==> v.email != u.email
    ensures FirstWithEmail(users + [u], u.email) == Some(u)
  {
    if users != [] {
      assert (users + [u])[1..] == users[1..] + [u];
      FindAddedUser(users[1..], u);
    } else {
      assert users + [u] == [u];
    }
  }
}
