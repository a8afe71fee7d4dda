# FoodFinder menu cache, in Dafny

This project models the menu-cache pipeline of FoodFinder (GopherGrub), a
campus dining-menu site, and proves properties of it:

- **Dining-provider client** (`DineocClient`). It covers three steps:
  - case-insensitive location lookup;
  - the one-time period-id table;
  - `GetMenu`'s validation and category flattening.

  Each provider endpoint, HTTP request plus JSON decoding, is an oracle
  that returns a decoded value or an error.
- **Cache synchroniser** (`Scraper`, `CacheTable`, `StrConv`). It covers:
  - `-back`/`-forward` parsing, with Go's `strconv.ParseInt` modelled
    exactly for base 10;
  - the rolling date window;
  - the dining-hall allow-list;
  - period codes;
  - the per-cell delete-then-insert transaction on the `DocCache` table;
  - retention pruning;
  - the fail-fast location × period × date loop.

  The table is a `DocCache` class over a `seq<Row>`. A transaction
  computes the new table and assigns it only on commit.
- **Backend read side and users** (`BackendDb`). It covers:
  - the period-name map and its agreement with the synchroniser;
  - `GetCacheMenu` as a filter over the same table;
  - `GetUserPrefs`;
  - the `Users` table behind `EmailExists`, `AddNewUser` and `GetByEmail`.
- **Notifier** (`Notifier`). It covers:
  - the location id → name map;
  - the e-mail table;
  - grouping the day's matches per user;
  - the exact text of each message body;
  - one message per user.
- **Phone-number fields** (`PhoneFormat`, `SignUpBox`, `PhoneNumberInput`).
  These cover digit cleaning, the ten-digit limit, the `(XXX)-XXX-XXXX`
  mask and the value each field shows.

Database failures (connect, prune, each transaction step, query errors) and
provider failures are inputs to the model. Every error path of the Go and
TypeScript code is a `Result`/`Option` outcome, not a precondition.

## Model

| member | source | states |
|---|---|---|
| Common.Lower | backend/dineocclient/dineocclient.go:97-98 | Lower-casing keeps the length and leaves no upper-case letter. |
| Common.LowerIdempotent | backend/dineocclient/dineocclient.go:106-111 | Lower-casing an already lower-cased name changes nothing, so comparing lower-cased names is stable. |
| Common.LastOrAppend | backend/dineocclient/dineocclient.go:105-115 | An overwrite-in-a-loop variable over a + b ends as the last value of b, falling back to the value reached after a. |
| Common.LastWinsSnoc | notifier/notifier.go:100-104 | A map built by assignment in a loop gains the new pair on top of the map built so far. |
| Common.LastWinsKeys | notifier/notifier.go:129-138 | The keys of a last-wins map are exactly the keys of the pairs read. |
| Common.LastWinsValue | notifier/notifier.go:129-138 | A key maps to the value of its last pair. |
| DineocClient.LocationMatchesMembership | backend/dineocclient/dineocclient.go:110-114 | An id is among a building's matches iff some location with that id has the requested lower-cased name. |
| DineocClient.CatalogMatchesMembership | backend/dineocclient/dineocclient.go:105-115 | An id is among the catalog's matches iff some location of a building whose lower-cased name matches has that id and name. |
| DineocClient.LocationMatchesLast | backend/dineocclient/dineocclient.go:110-114 | The value kept by the inner loop is the id of the last matching location of the building. |
| DineocClient.CatalogMatchesLast | backend/dineocclient/dineocclient.go:105-115 | Because the loop never breaks, the id kept is that of the last match in catalog order, across all same-named buildings. |
| DineocClient.LookupLocationIdOutcome | backend/dineocclient/dineocclient.go:94-122 | A catalog error is passed back. A success is a non-empty id of the last match. No match gives "Could not find location" with the lower-cased name. |
| DineocClient.LookupIgnoresCase | backend/dineocclient/dineocclient.go:97-98 | Building and location names that lower-case alike give the same answer. |
| DineocClient.EmptyLastIdHidesEarlierMatch | backend/dineocclient/dineocclient.go:112-120 | A later match whose id is "" hides an earlier real match, so the lookup reports the location as not found. |
| DineocClient.GetLocationIdByName | backend/dineocclient/dineocclient.go:94-122 | The nested loop answers exactly what the lookup specification gives for the catalog response. |
| DineocClient.LastMatchingId | backend/dineocclient/dineocclient.go:110-114 | The inner location loop leaves the id of the last location whose lower-cased name is wanted, or the id it started with when none is. |
| DineocClient.PeriodIdsNamedSnoc | backend/dineocclient/dineocclient.go:219-230 | One more provider period appends its id to the ids of its lower-cased name and to no other. |
| DineocClient.UnknownPeriodNameIgnored | backend/dineocclient/dineocclient.go:219-230 | A period whose lower-cased name is not breakfast, lunch, dinner or "every day" leaves every slot unchanged. |
| DineocClient.UnspacedEverydayIgnored | backend/dineocclient/dineocclient.go:227-228 | A provider period named "Everyday" (no space) fills no slot. |
| DineocClient.LaterPeriodOverwrites | backend/dineocclient/dineocclient.go:219-230 | A later period of a slot's name overwrites that slot with its id. |
| DineocClient.PeriodSlotComesFromPeriod | backend/dineocclient/dineocclient.go:219-230 | A non-empty slot holds the id of some provider period of that name. |
| DineocClient.GetPeriodIds | backend/dineocclient/dineocclient.go:199-233 | The loop passes the request error back, or fills the slots exactly as the period-id specification says. |
| DineocClient.PeriodIdsStep | backend/dineocclient/dineocclient.go:219-231 | One more period sets only the slot its lower-cased name selects, to its id; a name outside the four slots changes nothing. |
| DineocClient.SelectPeriodId | backend/dineocclient/dineocclient.go:145-157 | The switch refuses a name iff its lower-cased form is not breakfast, lunch, dinner or everyday. |
| DineocClient.FlattenAppend | backend/dineocclient/dineocclient.go:185-189 | Flattening distributes over concatenation of category lists. |
| DineocClient.FlattenMembership | backend/dineocclient/dineocclient.go:185-189 | A meal is in the flattened menu iff it is an item of some category. |
| DineocClient.FlattenLength | backend/dineocclient/dineocclient.go:185-189 | The flattened menu has exactly as many options as the categories have items. |
| DineocClient.GetMenu | backend/dineocclient/dineocclient.go:131-192 | The method's answer is the menu specification's: lookup, periods, period switch, empty-id check, fetch, flatten. |
| DineocClient.FlattenCategories | backend/dineocclient/dineocclient.go:185-189 | The category loop yields every item of every category, categories in order and items in order within each. |
| DineocClient.InvalidPeriodNameRejected | backend/dineocclient/dineocclient.go:145-157 | An invalid period name gives "Invalid period name" whatever the menu endpoint would answer, so no menu is fetched. |
| DineocClient.UnpublishedPeriodIsError | backend/dineocclient/dineocclient.go:159-162 | A valid name whose slot is "" gives "Failed to get period ID", not an empty menu. |
| DineocClient.MenuSuccessShape | backend/dineocclient/dineocclient.go:180-189 | A success carries the requested date, the provider's period name, a non-empty period id, and exactly the categories' items. |
| CacheTable.Where | scraper/scraper.go:119-123 | A WHERE filter never yields more rows than the table has. |
| CacheTable.WhereAppend | scraper/scraper.go:226-230 | Filtering distributes over concatenation. |
| CacheTable.WhereMembership | backend/db.go:130-138 | A row is selected iff it is in the table and meets the condition. |
| CacheTable.WhereAll | scraper/scraper.go:226-230 | A filter that every row meets keeps the table. |
| CacheTable.WhereNone | scraper/scraper.go:119-123 | A filter that no row meets selects nothing. |
| CacheTable.WhereImplied | backend/db.go:130-138 | Filtering by a weaker condition before a stronger one is filtering by the stronger one. |
| CacheTable.WhereExcluded | scraper/scraper.go:119-123 | Rows a DELETE removed never match a condition it implies. |
| CacheTable.ReplaceCellAtKey | scraper/scraper.go:119-147 | After delete-then-insert, the cell's rows are exactly one row per fetched meal, in fetch order, and none for an empty menu. |
| CacheTable.ReplaceCellElsewhere | scraper/scraper.go:119-123 | Rows of every other (day, location, mealtime) key are unchanged by a cell update. |
| CacheTable.ReplaceCellIdempotent | scraper/scraper.go:119-147 | Refreshing a cell twice with the same meals is refreshing it once. |
| CacheTable.PruneBeforeEffect | scraper/scraper.go:226-233 | After pruning no row is older than the cutoff, and every row at or after it is kept, with each later cell unchanged. |
| CacheTable.DocCache.DeleteOlderThan | scraper/scraper.go:226-233 | On success the table is pruned; on failure it is untouched and the error is returned. |
| CacheTable.DocCache.ReplaceCellInTransaction | scraper/scraper.go:106-151 | The first failing step (begin, delete, copy only for a non-empty menu, commit) is returned with the table untouched; otherwise exactly the cell is replaced. |
| StrConv.DecimalString | scraper/scraper.go:185 | The decimal spelling of a number is non-empty and all digits. |
| StrConv.FoldDigitsGrows | scraper/scraper.go:185 | Reading more digits never decreases the accumulated value. |
| StrConv.FoldDigitsSnoc | scraper/scraper.go:185 | Appending a digit multiplies the value by ten and adds the digit. |
| StrConv.DecimalStringValue | scraper/scraper.go:185 | Reading a number's decimal spelling gives the number back. |
| StrConv.ScanDigits | scraper/scraper.go:185 | A digit string whose value fits in 64 bits scans to its value. |
| StrConv.ParseIntDecimal | scraper/scraper.go:185 | ParseInt(s, 10, 0) gives back every 64-bit integer from its decimal spelling, signed or not. |
| StrConv.ParseIntOutOfRange | scraper/scraper.go:185-189 | A value from 2^63 up to 2^64-1 is reported as a range error. |
| Scraper.HallCopiesOnce | scraper/scraper.go:63-67 | With distinct hall names, the inner scan appends a location once if its name is allow-listed and never otherwise. |
| Scraper.AllowListedSnoc | scraper/scraper.go:61-69 | One more catalog location is appended iff its name is one of the six halls. |
| Scraper.AllowListedMembership | scraper/scraper.go:22-29 | A location is scraped iff it is in the catalog and its name equals an allow-listed hall, case-sensitively. |
| Scraper.GetLocations | scraper/scraper.go:54-72 | The triple loop returns the catalog error or exactly the allow-listed locations in building-then-location order. |
| Scraper.KeepAllowListed | scraper/scraper.go:62-68 | The loop over one building's locations keeps exactly its allow-listed locations, in order. |
| Scraper.KeepHalls | scraper/scraper.go:63-67 | Comparing one location against the six hall names appends it once when its name is among them and not at all otherwise. |
| Scraper.AllowListedAppend | scraper/scraper.go:61-69 | Filtering the concatenation of two buildings' locations is the concatenation of their filtered locations. |
| Scraper.PeriodCode | scraper/scraper.go:21 | A name has a code iff its lower-cased form is in the period index, and the code is that index. |
| Scraper.MealtimeCode | scraper/scraper.go:90-95 | The scan yields the period's index, or 255 when no entry matches. |
| Scraper.IndexerCodes | scraper/scraper.go:21 | Breakfast, lunch, dinner and everyday have codes 0, 1, 2 and 3. |
| Scraper.ScrapeMenuToDatabase | scraper/scraper.go:78-155 | The fetch error, then "Invalid period name", then a transaction error are returned in that order with the table untouched; otherwise exactly the cell is replaced. |
| Scraper.RunCellsAppend | scraper/scraper.go:235-241 | Running cells a then b is the run over a followed by b only if a succeeded. |
| Scraper.RunCellsStopsAtPrefix | scraper/scraper.go:238-241 | Once a prefix of the cells fails, no later cell changes the outcome. |
| Scraper.RunCellsFailFast | scraper/scraper.go:235-241 | A failed run failed at some cell n: cells before n committed, cell n's error is returned, and later cells were never run. |
| Scraper.FailingCell | scraper/scraper.go:235-241 | Names the cell at which a failed run stopped: every cell before it committed without error and its step produced the run's result. |
| Scraper.CellStepElsewhere | scraper/scraper.go:119-147 | A cell step leaves every other key's rows unchanged. |
| Scraper.RunCellsElsewhere | scraper/scraper.go:235-241 | A run whose cells never write key k leaves k's rows unchanged, whatever its outcome. |
| Scraper.RunCellsRefreshes | scraper/scraper.go:235-241 | After a successful run each of its cells holds exactly the meals fetched for it. |
| Scraper.RunCellsKeepsWindow | scraper/scraper.go:235-241 | A run whose cells lie at or after the cutoff never adds a row before it. |
| Scraper.PeriodCellsPrefix | scraper/scraper.go:236-237 | The cells of the first m periods are a prefix of the location's cells. |
| Scraper.LocationCellsPrefix | scraper/scraper.go:235 | The cells of the first m locations are a prefix of the run's cells. |
| Scraper.LocationCellsMembership | scraper/scraper.go:235-237 | A cell is visited iff its location is scraped, its period is in the index and its date is in the window. |
| Scraper.PeriodCellsMembership | scraper/scraper.go:236-237 | A cell of one location is visited iff its period is in the list and its date is in the window. |
| Scraper.ScrapeMenusToDatabase | scraper/scraper.go:217-251 | Locations, prune and loop together give the run specification's outcome. |
| Scraper.ScrapeLocation | scraper/scraper.go:236-241 | The period loop of one location runs that location's cells in period-then-date order, stopping at the first error. |
| Scraper.ScrapeDates | scraper/scraper.go:237-241 | The date loop of one location and period runs its cells in date order, stopping at the first error. |
| Scraper.ScrapeRunSucceeded | scraper/scraper.go:217-251 | After a successful run nothing predates the window start. Every allow-listed location × period × window date holds exactly its fetched meals. |
| Scraper.ScrapeRunElsewhere | scraper/scraper.go:226-241 | A key in the window whose day, mealtime or location the run does not visit keeps its rows, whatever the outcome. |
| Scraper.FirstFlagErrorSticks | scraper/scraper.go:179-199 | Once an argument error has occurred, later arguments do not change which error is returned. |
| Scraper.ParseArgs | scraper/scraper.go:177-199 | The argument loop answers the specification of argument parsing: the first error in argument order, else the last value of each flag or its default. |
| Scraper.ArgsDefaults | scraper/scraper.go:35-36 | Without -back or -forward the window is 7 days back and 14 forward. |
| Scraper.DanglingFlag | scraper/scraper.go:181-184 | A final -back or -forward with no value is reported as the missing-argument error of that flag. |
| Scraper.ArgsRoundTrip | scraper/scraper.go:179-199 | Passing -back B -forward F in decimal yields exactly (B, F). |
| Scraper.WindowDaysShape | scraper/scraper.go:201-205 | The window has back + forward + 1 days from now − back to now + forward, rising by one day per entry. |
| Scraper.DateWindow | scraper/scraper.go:201-205 | The loop builds exactly that window. |
| Scraper.RunScraper | scraper/scraper.go:160-210 | A missing connection string, a failed connect or a bad argument each return their error with the table untouched. Otherwise the run over the window and the site follows. |
| BackendDb.PeriodNumbersAgree | backend/db.go:37-42 | The map's keys are exactly the synchroniser's period names; each maps to its index, injectively, and to the synchroniser's code. |
| BackendDb.CapitalisedNameRefusedOnRead | backend/db.go:126-128 | Every period name that scrapeMenuToDatabase would accept with an upper-case letter in it, "Lunch" for one, is refused by the read side, which does not lower-case. The synchroniser itself only passes lower-case names. |
| BackendDb.GetCacheMenu | backend/db.go:122-157 | An unknown period name is refused before any query, and a query failure is returned. No entry is marked preferred. |
| BackendDb.GetCacheMenuMembership | backend/db.go:130-151 | An entry is returned iff a cache row with that day, location and period code carries that meal and id. |
| BackendDb.ReadAfterRefresh | backend/db.go:130-151 | Reading a cell just refreshed by the synchroniser returns exactly the fetched meals in fetch order. |
| BackendDb.GetUserPrefs | backend/db.go:160-186 | The "no rows" answer gives an empty map and a query failure its error. Otherwise the loop builds the set of the user's preferences. |
| BackendDb.PreferencesOfMembership | backend/db.go:163-167 | A preference is selected iff the user has a Preferences row for it. |
| BackendDb.UserPrefsMeaning | backend/db.go:175-183 | p maps to true iff the user has a row with preference p; no key maps to false. |
| BackendDb.UserStore.constructor | backend/db.go:80-99 | A new table is empty, with the id counter at 1. |
| BackendDb.UserStore.EmailExists | backend/db.go:65-77 | A query failure is returned as an error. Otherwise the existence check answers true exactly when the lookup by e-mail finds a user, so the two queries agree. |
| BackendDb.UserStore.AddNewUser | backend/db.go:80-99 | A lookup failure, an email in use or an insert failure returns −1 and inserts nothing. Otherwise one row is appended and its fresh id returned. |
| BackendDb.UserStore.GetByEmail | backend/db.go:102-120 | A query failure is returned. No matching email gives no user and no error. A returned user has the email, and a user with the email is always found. |
| BackendDb.FirstWithEmail | backend/db.go:107-110 | No user is found iff none has the email; a found user is in the table with that email. |
| BackendDb.FindAddedUser | backend/db.go:89-98 | A user added with a fresh email is the one found by that email. |
| Notifier.GetLocations | notifier/notifier.go:94-106 | The double loop returns the catalog error, or every location id mapped to its name with later duplicates winning. |
| Notifier.NamesStep | notifier/notifier.go:100-104 | One more location overwrites its id's entry in the map built so far. |
| Notifier.LocationNamesMeaning | notifier/notifier.go:100-104 | A location with no later duplicate id is named by its own name. |
| Notifier.LocationNamesKeys | notifier/notifier.go:100-104 | The map's keys are exactly the catalog's location ids. |
| Notifier.ScrapedLocationsAreNamed | notifier/notifier.go:23 | With the synchroniser's site id, every location whose menus are cached has a name in the map. |
| Notifier.SiteIdAsWrittenMissesScrapedSite | notifier/notifier.go:23 | The site id as written has 25 characters. A provider that caches a hall under the real 24-character id refuses the notifier's lookup. |
| Notifier.BuildEmailTable | notifier/notifier.go:129-138 | The loop maps each user id to the email of its last row. |
| Notifier.ForUserAbsent | notifier/notifier.go:155-164 | A user with no matches has an empty list. |
| Notifier.GroupedSnoc | notifier/notifier.go:163 | One more match is appended to its own user's list and changes no other list. |
| Notifier.GroupByUser | notifier/notifier.go:155-164 | The loop builds exactly the grouping specification: each user's matches in query order. |
| Notifier.ForUserMembership | notifier/notifier.go:163 | A match is in a user's list iff it is a row read for that user. |
| Notifier.GroupedMembership | notifier/notifier.go:155-164 | A user is a key iff some row is theirs; their list holds exactly their rows. |
| Notifier.UserOrderCovers | notifier/notifier.go:155-164 | Users in order of first appearance are distinct and are exactly the users of the rows. |
| Notifier.SumLengthsUpdate | notifier/notifier.go:163 | Replacing one user's list changes the total length by the change in that list's length. |
| Notifier.GroupedTotal | notifier/notifier.go:155-164 | The lists' lengths add up to the number of rows read. |
| Notifier.MessageBody | notifier/notifier.go:75-83 | The loop builds the body specification: the header, then one line per match in list order. |
| Notifier.FirstBadCodeFails | notifier/notifier.go:81 | Once a mealtime code outside 0..3 is met, the body is that failure whatever follows. |
| Notifier.BodySucceeds | notifier/notifier.go:18 | A body can be written iff every mealtime code is in 0..3 (code 3 reads "every day"). |
| Notifier.NewlineCountAppend | notifier/notifier.go:77-82 | Line breaks of a concatenation add up. |
| Notifier.NoNewlineCount | notifier/notifier.go:77-82 | A string without a newline character has no line breaks. |
| Notifier.LineBreaks | notifier/notifier.go:77-82 | A line about single-line names ends in exactly one line break, with a missing location name as "". |
| Notifier.BodyLineCount | notifier/notifier.go:75-83 | A written body starts with the header and has one more line break per match than the header. |
| Notifier.EnumerationLength | notifier/notifier.go:64 | An iteration order that visits every key once has as many entries as the table has keys. |
| Notifier.GenerateMessages | notifier/notifier.go:57-89 | For the site id it is given, a failed name lookup is returned. Otherwise there is one message per user iff every user has valid addresses and a writable body; each message has the subject and that user's body. The code as written passes the 25-character id. |
| PhoneFormat.KeepDigits | frontend/src/components/SignUpBox.tsx:36-38 | Dropping non-digits leaves only the characters 0-9 and never lengthens the input. |
| PhoneFormat.KeepDigitsAppend | frontend/src/components/SignUpBox.tsx:38 | The digits of a concatenation are the digits of each part, in order. |
| PhoneFormat.KeepDigitsOfDigits | frontend/src/components/SignUpBox.tsx:38 | A digit string is its own digits. |
| PhoneFormat.RunLength | frontend/src/components/SignUpBox.tsx:41 | The digit run from a position never passes the end of the string. |
| PhoneFormat.FirstLongRun | frontend/src/components/SignUpBox.tsx:40-43 | The match of the eleven-or-more-digits pattern, if any, starts such a run, and no run of eleven starts after the start position when there is none. |
| PhoneFormat.DigitsRunLength | frontend/src/components/SignUpBox.tsx:40-43 | In a digit string the run from any position reaches the end. |
| PhoneFormat.RemoveBlacklistMeaning | frontend/src/components/SignUpBox.tsx:28-46 | Cleaning keeps the first min(10, k) digits of the input in order, where k is the input's digit count. |
| PhoneFormat.RemoveBlacklistIdempotent | frontend/src/components/SignUpBox.tsx:36-45 | Cleaning a cleaned number changes nothing. |
| PhoneFormat.WrapPhoneNumber | frontend/src/components/SignUpBox.tsx:10-26 | The mask is "" unless the input has ten characters, and then it has fourteen. |
| PhoneFormat.WrapMatchesPattern | frontend/src/components/PhoneNumberInput/PhoneNumberInput.tsx:16-20 | The mask of ten digits matches the field's pattern. |
| PhoneFormat.StripUndoesWrap | frontend/src/components/SignUpBox.tsx:21-45 | Stripping, and so cleaning, the mask of ten digits gives the digits back. |
| PhoneFormat.WrapKeepsDigits | frontend/src/components/SignUpBox.tsx:21-45 | Masking ten characters adds only punctuation: the digits of the mask are the digits of the input. |
| PhoneFormat.PatternIsWrap | frontend/src/components/PhoneNumberInput/PhoneNumberInput.tsx:58 | Every string the field's pattern accepts is the mask of its own ten digits. |
| SignUpBox.ChangePhoneNumber | frontend/src/components/SignUpBox.tsx:58-74 | The masked first ten digits, matching the pattern, when there are at least ten digits; otherwise the bare digits. |
| SignUpBox.ChangePhoneNumberIdempotent | frontend/src/components/SignUpBox.tsx:58-74 | Re-entering the field's own state leaves it unchanged. |
| PhoneNumberInput.HandlePhoneNumber | frontend/src/components/PhoneNumberInput/PhoneNumberInput.tsx:28-47 | The new state is digits only, at most ten, the first digits of the typed value. |
| PhoneNumberInput.DisplayedValue | frontend/src/components/PhoneNumberInput/PhoneNumberInput.tsx:51-75 | The field always shows exactly the state's digits. For a digit state, what it shows satisfies the input's pattern exactly when the number has ten digits. |
| PhoneNumberInput.EditRestoresState | frontend/src/components/PhoneNumberInput/PhoneNumberInput.tsx:39-58 | A full number is shown in the pattern. Any edit of the shown value that keeps its digits gives the same state back. |

## Left out

- HTTP transport and JSON decoding are oracles returning decoded values or an error. The provider client does not check HTTP status codes and always sends GET, so no status-code behaviour is claimed.
- `GetMenuById`, which the synchroniser calls, is not part of this model. Its result, a list of (name, id) pairs or an error, is the `menuById` oracle.
- Common.Lower: lower-cases ASCII letters only, because Go's `strings.ToLower` works on full Unicode. Names outside ASCII may compare differently from the Go code.
- Clock, `time.Truncate`, date formatting and time zones: dates are integer day numbers.
- The randomised sleep between cells has no effect on the table and is omitted.
- Scraper.WindowDays: `back + forward` is an unbounded integer, not Go's 64-bit `int`. Durations that overflow `time.Duration` are not modelled.
- A window with no dates (back + forward < 0) makes `dates[0]` panic in Go. The model returns the `DatesIndexOutOfRange` error instead.
- Database drivers, connection pools and environment variables are left out. Each database step that can fail takes a fault parameter. The connection string is a parameter.
- SQL row order is taken as table order. PostgreSQL does not promise an order for `DELETE`/`COPY`/`SELECT` results.
- The ordering by user in the notifier's query is not used by the model.
- BackendDb.GetCacheMenu: the `ErrNoRows` branch and row-scan errors are not modelled separately; either becomes the query-failure input. For the `ErrNoRows` branch, the Go code goes on to use the rows handle.
- BackendDb.UserStore.AddNewUser: the serial id is a counter field. A constraint violation racing with the existence check is not modelled.
- Password hashing (bcrypt), JWT tokens, cookies, HTTP handlers and the older `backend/main.go` are not part of this model.
- The notifier's SQL queries, `notifyUsers`/`runNotifier` composition, environment reads and SMTP delivery (`sendMessages`) are left out. Their results are parameters.
- The sender address is a parameter, and the mail library's address parsing is the `validAddress` oracle.
- Notifier.GenerateMessages: the site id is a parameter. `generateMessages` as written passes `UMN_SITE_ID` (notifier/notifier.go:23, 58), which is `Notifier.SiteIdAsWritten`; the Findings row shows what that id does.
- Notifier.MessageBody and Notifier.Body: a mealtime code outside 0..3 makes `mealtimeIndexer[notif.mealTime]` panic in Go (notifier/notifier.go:81). The model returns the `MealtimeOutOfRange` error instead.
- BackendDb.GetUserPrefs: a row-scan failure ("failed reading row", backend/db.go:176-179) is not modelled; every selected row is read. `prefRows.Err()` is never checked in the Go code, so an error during iteration would end the loop early and return the preferences read so far with no error; the model does not capture that either.
- Notifier.GenerateMessages: Go's map iteration order is unspecified, so the order is the `iteration` parameter, required to list each user once. The `SetBulk` header is not modelled.
- The notifier reads a user's e-mail from the e-mail table. A user missing from that table gets the empty address, which the address oracle decides.
- Scraper.ScrapeMenusToDatabase, Scraper.ScrapeLocation and Scraper.ScrapeDates: the three nested loops of `ScrapeMenusToDatabase` are one method per loop level, with the same order and early return.
- PhoneFormat: strings are sequences of characters, not UTF-16 code units. `length` and `slice` agree with the model for text without surrogate pairs.
- The React components' rendering, CSS classes and placeholders are left out. Only the state updates and the value shown are modelled.

## Findings

| source | as written | input that shows it | evidently intended | confidence | as-written member | corrected member |
|---|---|---|---|---|---|---|
| notifier/notifier.go:23 | The site id has a trailing `i`: 25 characters, where the synchroniser's id at scraper/scraper.go:40 has 24. | A provider that serves the catalog only for the 24-character site. The synchroniser caches menus for its halls, while the notifier's location lookup fails, so no notification is sent. | The notifier asks for the synchroniser's site id, so every cached location has a name. | not executed | Notifier.SiteIdAsWrittenMissesScrapedSite | Notifier.ScrapedLocationsAreNamed |
