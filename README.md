# Habit tracker: a verified model of its core logic

This project models, in Dafny, the logic at the core of a local-first
habit tracker (Next.js, Prisma, zod). It proves properties of that model.
Profiles (`User`) own habits. Habits are ticked off per calendar day through
check-ins. The active profile is chosen by the `activeUserId` cookie and
falls back to the oldest profile, or to a freshly created "Default" one.

The model covers:

* **Dates** (`Dates`, `Days`, `Pattern`, `Digits`).
  * `parseISODateUTC`: the `^\d{4}-\d{2}-\d{2}$` shape check runs first, then the calendar check. Each failure has its own message.
  * `toISODateUTC` and `todayISODate` are ten-character prefixes of an ISO timestamp.
  * Days are integers counted from 1970-01-01, and `DayNumber` is proved injective. Keying by day number therefore groups exactly as keying by the `YYYY-MM-DD` string does.
* **Payload validation** (`Schemas`, `JsString`, and the schemas inside `UsersApi` and `ActiveApi`).
  * These follow zod's object parsing on the parsed JSON value.
  * They use JavaScript's `trim()` whitespace set and its UTF-16 `length`.
* **The store** (`Model`, `Store`).
  * An in-memory database of profiles, habits and check-ins in creation order, with a logical clock that stamps `createdAt` and derives ids.
  * `Store.Store` is a class whose methods update it in place. Each method is proved against a function on store values, and the lemmas about that function carry the properties.
* **The endpoints and pages**:
  * `GET`/`POST /api/habits` (`HabitsApi`) and `GET`/`POST /api/users` (`UsersApi`).
  * `POST /api/users/active` (`ActiveApi`).
  * The home page loader (`Home`) and the stats page (`Stats`).
  * The seed script (`Seed`).
* **The client tracker** (`Tracker`).
  * The completion map `date -> set of habit ids` as a class field. It is built by a loop and updated for one pair, rolled back, or cleared of a habit.
  * The per-day stats and the weekly and 30-day averages.
* **`Math.round`** of a ratio, as exact half-up integer arithmetic (`Percent`). The completion percentage is `(200*done + total) / (2*total)`.

Inputs the source reads from its environment become parameters:
* the clock, passed as the `toISOString()` text for `todayISODate`, or as the day number `today`;
* the cookie value;
* the request body, as a JSON value;
* how a `fetch` ended: with a response and its `ok` flag, or rejected with a thrown value.

## Model

| member | source | states |
|---|---|---|
| Pattern.DatePatternShape | src/lib/dates.ts:7 | A string matches the date regex iff it has length 10, `-` at indices 4 and 7 and ASCII digits everywhere else |
| Pattern.HexColorPatternShape | src/lib/schemas.ts:5 | A string matches the colour regex iff it is `#` followed by exactly six characters of `[0-9a-fA-F]` |
| Dates.ParseISODateUTC | src/lib/dates.ts:5-17 | A string without the date shape fails with the format error. A well-shaped string succeeds iff its fields name a calendar date, and otherwise fails with the invalid-date error. A success is a calendar date with a four-digit year |
| Dates.ErrorMessagesDiffer | src/lib/dates.ts:7-14 | The format error and the invalid-date error carry different messages |
| Dates.Slice10 | src/lib/dates.ts:1-3 | `slice(0, 10)` keeps a prefix of length min(10, length) |
| Dates.ParseThenFormat | src/lib/dates.ts:5-21 | Every string `parseISODateUTC` accepts is returned unchanged by `toISODateUTC` of its parse |
| Dates.FormatThenParse | src/lib/dates.ts:5-21 | Every calendar date with a four-digit year parses back from its `toISODateUTC` text |
| Dates.DayNumberMonotone | src/lib/dates.ts:11 | Day numbers are strictly increasing in calendar order |
| Dates.DayNumberInjective | src/lib/dates.ts:19-21 | Distinct calendar dates have distinct day numbers, so day numbers are faithful date keys |
| Days.Weekday | src/app/page.tsx:16 | `getUTCDay` lies in 0..6 |
| Days.StartOfWeek | src/app/page.tsx:16 | The week start is at most six days back, falls on the requested weekday, and no later day up to the given one does |
| JsString.Trim | src/lib/schemas.ts:9 | `trim()` keeps the part between leading and trailing white space. The result neither starts nor ends with white space, and it is empty iff the input is all white space |
| JsString.TrimIdempotent | src/lib/schemas.ts:9 | Trimming twice is trimming once |
| JsString.JsLength | src/lib/schemas.ts:9 | The UTF-16 length lies between the character count and twice it, and is 0 iff the string is empty |
| Schemas.TrimmedString | src/lib/schemas.ts:9 | A field passes iff it is a string whose trimmed length is within the bounds. It yields the trimmed text, and a failure has at least one issue |
| Schemas.OptionalTrimmedString | src/lib/schemas.ts:15 | An absent field passes as absent. A present one is checked exactly like the required field |
| Schemas.HexColor | src/lib/schemas.ts:3-6 | An absent colour passes. A present one passes iff it is a string matching the colour regex, and it is kept unchanged |
| Schemas.HexColorAcceptsExactly | src/lib/schemas.ts:3-6 | A colour string is accepted iff it is `#` plus exactly six hex digits |
| Schemas.OptionalBool | src/lib/schemas.ts:17 | A field passes iff it is absent or a boolean |
| Schemas.RequiredString | src/lib/schemas.ts:24 | A field passes iff it is present and a string, and it is kept as given |
| Schemas.At | src/lib/schemas.ts:8-11 | A field's issues are empty iff the field passed |
| Schemas.ParseCreateHabit | src/lib/schemas.ts:8-11 | A payload is accepted iff it is an object whose trimmed name has 1 to 80 code units and whose colour is absent or a hex colour. The result carries the trimmed name and the colour as given, and every rejection reports an issue |
| Schemas.BlankHabitNameRejected | src/lib/schemas.ts:9 | A name made only of white space is rejected, whatever the colour |
| Schemas.ColorMayBeAbsent | src/lib/schemas.ts:6-11 | A valid name alone is a complete payload, with no colour |
| Schemas.ParseUpdateHabit | src/lib/schemas.ts:13-21 | An update is accepted iff each present field passes its check and at least one of the three keys is present. The result carries exactly the given fields |
| Schemas.EmptyUpdateRejected | src/lib/schemas.ts:19-21 | An update with none of the fields fails with exactly the message "Provide at least one field to update." |
| Schemas.UpdateNameLikeCreate | src/lib/schemas.ts:15 | A name present in an accepted update passes the create check and is stored trimmed |
| Schemas.ParseToggleCheckIn | src/lib/schemas.ts:23-26 | A check-in payload is accepted iff `date` is a string and `completed` is absent or a boolean. Both are kept as given |
| Model.IdForInjective | src/lib/activeUser.ts:15-18 | Rows created at different ticks get different ids |
| Model.ClockIdIsFresh | src/lib/activeUser.ts:15-18 | The id of the next row is not taken by any profile, and no habit points to it |
| Model.InsertUser | src/lib/activeUser.ts:15-18 | `user.create` appends one profile with a fresh id and the given name and colour. It keeps the store invariant and changes nothing else |
| Model.NewHabitsFresh | src/app/api/users/route.ts:60-62 | The habits one `createMany` inserts have pairwise distinct ids, and none of them is an id handed out at an earlier tick |
| Model.InsertHabits | src/app/api/users/route.ts:60-62 | `habit.createMany` appends exactly the new habits after the existing ones and keeps the store invariant |
| Model.ActiveOwnedBy | src/app/api/habits/route.ts:24-28 | The listing holds exactly the unarchived habits of the profile |
| Model.ActiveOwnedByConcat | src/app/api/habits/route.ts:24-28 | The listing of two concatenated habit lists is the concatenation of their listings |
| Model.ActiveOwnedByOrdered | src/app/api/habits/route.ts:26 | The listing is ordered by `createdAt` ascending |
| Store.EnsureDefault | src/lib/activeUser.ts:7-21 | Afterwards at least one profile exists and the result is the oldest profile's id. A non-empty store is unchanged. An empty one gains exactly a profile "Default" with colour `#0ea5e9` |
| Store.EnsureDefaultIdempotent | src/lib/activeUser.ts:7-21 | A second call creates nothing and returns the same id |
| Store.ResolveActive | src/lib/activeUser.ts:23-35 | The result is the cookie's value iff it is non-empty and names an existing profile. Otherwise it is ensureDefaultUser's result. It always names an existing profile |
| Store.ResolveActiveOnlyAddsDefault | src/lib/activeUser.ts:23-35 | Resolving never touches habits or check-ins. At most it adds one profile to an empty table |
| Store.Store.CreateUser | src/lib/activeUser.ts:15-18 | The store becomes `InsertUser` of its old state |
| Store.Store.CreateMany | src/app/api/users/route.ts:60-62 | The store becomes `InsertHabits` of its old state |
| Store.Store.CreateHabit | src/app/api/habits/route.ts:62-65 | The store becomes `InsertHabits` of its old state with one row, and the returned habit is the one inserted |
| Store.Store.UserExists | src/lib/activeUser.ts:27-31 | The answer is true iff a profile with that id exists |
| Store.Store.EnsureDefaultUser | src/lib/activeUser.ts:7-21 | The new state and the id returned are `EnsureDefault` of the old state |
| Store.Store.GetActiveUserId | src/lib/activeUser.ts:23-35 | The new state and the id returned are `ResolveActive` of the old state and the cookie |
| HabitsApi.Annotate | src/app/api/habits/route.ts:39-46 | The annotated list has the same length and order as the habit list. `completed` is true iff a completed check-in of that habit exists on the day |
| HabitsApi.GetRejectsBadDate | src/app/api/habits/route.ts:12-20 | A date that fails to parse is answered with 400 and the parse error's message, and the store is left untouched |
| HabitsApi.GetRejectsMalformedDate | src/app/api/habits/route.ts:12-20 | A `date` parameter not of the form `DDDD-DD-DD` is answered with the format message |
| HabitsApi.GetDefaultsToToday | src/app/api/habits/route.ts:10 | Without a `date` parameter the answer is for today's date text |
| HabitsApi.GetListsActiveHabits | src/app/api/habits/route.ts:22-47 | A valid date is answered with 200. The list holds exactly the active profile's unarchived habits, oldest first, each flagged iff it has a completed check-in on that day |
| HabitsApi.Get | src/app/api/habits/route.ts:8-48 | The new state and the answer are `GetSpec` of the old state |
| HabitsApi.PostRejectsInvalid | src/app/api/habits/route.ts:51-58 | An invalid payload is answered with 400 and no store change, not even a default profile |
| HabitsApi.PostCreatesOne | src/app/api/habits/route.ts:60-67 | A valid payload is answered with 201. Exactly one habit is appended: owned by the active profile, unarchived, with the parsed name and colour |
| HabitsApi.Post | src/app/api/habits/route.ts:50-68 | The new state and the answer are `PostSpec` of the old state |
| UsersApi.ParseCreateUser | src/app/api/users/route.ts:8-14 | A profile payload is accepted iff its trimmed name has 1 to 40 code units and its colour is absent or a hex colour |
| UsersApi.ProfileNameStricterThanHabitName | src/app/api/users/route.ts:8-14 | A payload accepted as a profile is also accepted as a habit, with the same name and colour |
| UsersApi.GetListsAllUsers | src/app/api/users/route.ts:16-31 | The listing holds every profile, oldest first, with the resolved active id, which names one of them |
| UsersApi.Get | src/app/api/users/route.ts:16-31 | The new state and the answer are `GetSpec` of the old state |
| UsersApi.PostRejectsInvalid | src/app/api/users/route.ts:34-47 | An invalid payload is answered with 400. The only change it leaves is the "Default" profile that ensureDefaultUser adds to an empty table |
| UsersApi.ResolveAfterDefault | src/app/api/users/route.ts:34-38 | After ensureDefaultUser, resolving the source profile changes nothing more |
| UsersApi.CreateWithCopiesProfile | src/app/api/users/route.ts:49-52 | Exactly one profile is appended, with a fresh id different from the source's and the given name and colour |
| UsersApi.CreateWithCopiesHabits | src/app/api/users/route.ts:54-63 | The habits grow by the number of the source's unarchived habits, and the existing habits form an unchanged prefix. The new profile's unarchived habits carry the source's names and colours in order. The source's own listing is unchanged, so archived habits are not copied |
| UsersApi.AppendCopies | src/app/api/users/route.ts:54-63 | The same, for any habit list that the new owner does not yet own |
| UsersApi.CopiesSpec | src/app/api/users/route.ts:61 | The copies are all unarchived, owned by the new profile and by no other, and carry the source's names and colours |
| UsersApi.ActiveOwnedByAll | src/app/api/users/route.ts:54-57 | A list of unarchived habits of one owner is listed whole |
| UsersApi.ActiveOwnedByNone | src/app/api/users/route.ts:54-57 | A list without habits of an owner lists nothing for that owner |
| UsersApi.NoHabitOfFreshUser | src/app/api/users/route.ts:49-52 | No habit is owned by an id that names no profile |
| UsersApi.PostCreatesProfile | src/app/api/users/route.ts:33-71 | A valid payload is answered with 201. The store becomes the profile-with-copies creation applied after ensureDefaultUser, with the resolved profile as the source |
| UsersApi.CreateProfile | src/app/api/users/route.ts:49-63 | The new state and the profile returned are `CreateWithCopies` of the old state |
| UsersApi.Post | src/app/api/users/route.ts:33-71 | The new state and the answer are `PostSpec` of the old state |
| ActiveApi.ParseSetActive | src/app/api/users/active/route.ts:8-10 | A payload is accepted iff `userId` is a string of at least one code unit, which is kept untrimmed |
| ActiveApi.PostOutcome | src/app/api/users/active/route.ts:12-42 | At least one profile exists afterwards. A bad payload gets 400 "Invalid payload" and an unknown id gets 404 "User not found", neither with a cookie. A known id gets 200 with the cookie `activeUserId` set to exactly that id |
| ActiveApi.CookieNamesExistingUser | src/app/api/users/active/route.ts:32-39 | A cookie, when set, names an existing profile and has max age 31536000 seconds |
| ActiveApi.CookieIsResolved | src/app/api/users/active/route.ts:32-39 | The cookie set makes the next active-profile resolution return exactly that profile |
| ActiveApi.Post | src/app/api/users/active/route.ts:12-42 | The new state and the answer are `PostSpec` of the old state |
| Seed.SeedListDistinct | prisma/seed.ts:7-24 | The seed list has 16 entries with pairwise distinct names |
| Seed.Missing | prisma/seed.ts:31 | An entry is kept iff it is in the list and its name is not among the existing names |
| Seed.MissingDistinct | prisma/seed.ts:31 | Filtering a list with distinct names keeps the names distinct |
| Seed.MissingNames | prisma/seed.ts:26-31 | The missing names are exactly the seed names not yet present |
| Seed.SeedRowsInserted | prisma/seed.ts:34 | The inserted habits are unowned and unarchived, one per missing entry, with that entry's name and colour |
| Seed.SeedAddsExactlyMissing | prisma/seed.ts:26-34 | Existing habits, profiles and check-ins stay as they are. The added habits are unowned seed entries, named exactly by the seed names not yet present, each at most once |
| Seed.SeedNoWriteWhenComplete | prisma/seed.ts:32 | When every seed name is present, the store is unchanged |
| Seed.SeedCompletes | prisma/seed.ts:26-34 | After a run every seed name is present and every earlier habit remains |
| Seed.SeedIdempotent | prisma/seed.ts:26-34 | Running the seed twice has the effect of running it once |
| Seed.RunSeed | prisma/seed.ts:26-34 | The new state is `SeedSpec` of the old state |
| Tracker.NoEntryNothingCompleted | src/components/HabitTracker.tsx:109 | On a date with no entry nothing is completed |
| Tracker.BuildCompletedMap | src/components/HabitTracker.tsx:45-51 | The map has exactly the input's dates. Each date maps to the set of its ids, and a pair is completed iff the id is listed under the date |
| Tracker.WithValue | src/components/HabitTracker.tsx:114-123 | The pair's membership becomes the given value, the date gains an entry, and every other pair is unchanged |
| Tracker.RollbackRestores | src/components/HabitTracker.tsx:137-141 | Setting a pair and then setting it back to its old value restores every membership |
| Tracker.WithoutHabit | src/components/HabitTracker.tsx:181 | The list keeps exactly the habits with a different id |
| Tracker.DropHabit | src/components/HabitTracker.tsx:182-189 | Every date keeps its entry, minus the deleted id. A pair is completed afterwards iff it was before and its id is another habit's |
| Tracker.Tracker.constructor | src/components/HabitTracker.tsx:87-92 | The state starts from the initial data, with the completion map built from it and no error |
| Tracker.Tracker.SetCompletedValue | src/components/HabitTracker.tsx:114-123 | The map becomes `WithValue` of the old map, and the habits and error stay |
| Tracker.Tracker.Toggle | src/components/HabitTracker.tsx:125-142 | With an `ok` response the pair's membership is flipped and the error cleared. With a failed response every membership is as before and the error is "Failed to update check-in". When `fetch` rejects, nothing catches it: the flip stays and no error is shown |
| Tracker.Tracker.DeleteHabit | src/components/HabitTracker.tsx:173-196 | With an `ok` response the habit leaves the list and every date's set, and all other memberships stay. Otherwise the list and map are unchanged, and the error is "Failed to delete habit" for a failed response, or the thrown error's own message when `fetch` rejects (that text again if the thrown value is not an `Error`) |
| Tracker.CountDoneIsCardinality | src/components/HabitTracker.tsx:200-203 | The count of done habits is the number of listed positions completed that day |
| Tracker.StatsForDate | src/components/HabitTracker.tsx:198-209 | `total` is the list's length and `done` counts the listed habits completed that day, so `done <= total`. The percent is 0 for an empty list and otherwise the rounded `100*done/total`, so it lies in 0..100 (100 when all are done) |
| Tracker.DailyPercents | src/components/HabitTracker.tsx:218 | Each date's entry is that date's percent |
| Tracker.Average | src/components/HabitTracker.tsx:216-226 | The mean of the daily percents, rounded, in 0..100; 0 without dates |
| Tracker.AverageOfUniform | src/components/HabitTracker.tsx:216-226 | When every date has the same percent, the average is that percent |
| Tracker.WeekDates | src/components/HabitTracker.tsx:95-98 | Seven dates |
| Tracker.WeekDatesConsecutive | src/components/HabitTracker.tsx:95-98 | The dates are the seven consecutive days from the week start, oldest first |
| Tracker.HistoryDates | src/components/HabitTracker.tsx:100-104 | Thirty dates |
| Tracker.HistoryDatesNewestFirst | src/components/HabitTracker.tsx:100-104 | The dates are the thirty days ending today, newest first |
| Tracker.WeekAvg | src/components/HabitTracker.tsx:216-220 | The rounded mean of the seven daily percents of the week, in 0..100 |
| Tracker.Last30Avg | src/components/HabitTracker.tsx:222-226 | The rounded mean of the thirty daily percents of the history, in 0..100 |
| Percent.CompletionPercent | src/components/HabitTracker.tsx:205 | 0 for a total of 0, otherwise the nearest integer to `100*done/total` with halves rounded up. It lies in 0..100 when `done <= total`, is 100 when all are done and 0 when none are |
| Percent.MeanPercent | src/components/HabitTracker.tsx:219 | The nearest integer to `sum/count` with halves rounded up, in 0..100 |
| Percent.MeanOfUniform | src/components/HabitTracker.tsx:219 | The mean of equal percents is that percent |
| Home.WindowsFor | src/app/page.tsx:13-20 | The week starts on the Monday at most six days back, `weekEnd` is six days after it, and `historyStart` is 29 days before today |
| Home.WindowCoversTrackerDates | src/app/page.tsx:13-20 | The history window holds 30 days including today, and every week date and history date lies inside the fetched window |
| Home.FetchCompleted | src/app/page.tsx:36-46 | A row is fetched iff its habit is listed, its day is inside the window, and a completed check-in exists for it |
| Home.IdsOn | src/app/page.tsx:48-52 | The list pushed for a date holds exactly the ids of the rows of that date, and is empty for a date without rows |
| Home.IdsOnCountsRows | src/app/page.tsx:48-52 | Each row of a date adds exactly one entry to that date's list |
| Home.GroupedExactly | src/app/page.tsx:48-52 | `completedByDate[k]` lists exactly the ids of the rows dated `k`, one entry per row. Every row appears, and a date without rows has no key |
| Home.GroupByDay | src/app/page.tsx:48-52 | The loop builds exactly the grouping of the fetched rows |
| Home.GroupedFetchAt | src/app/page.tsx:36-52 | An id is listed under a date iff it is one of the listed habits, the date lies in the window, and a completed check-in exists. Nothing is listed when there are no habits |
| Home.HomeLoadsActiveProfile | src/app/page.tsx:13-70 | The page loads exactly the active profile's unarchived habits, oldest first. The map is empty when there are none, and otherwise lists an id under a date iff the pair is an in-window completed check-in |
| Home.TrackerSeesCheckIns | src/app/page.tsx:48-70 | In the tracker built from the page's data, a loaded habit shows completed on a week or history date iff it has a completed check-in that day |
| Home.LoadHome | src/app/page.tsx:13-70 | The new state and the initial data are `HomeSpec` of the old state |
| Stats.Unarchived | src/app/stats/page.tsx:37-40 | Exactly the unarchived habits, whoever owns them |
| Stats.TotalByUser | src/app/stats/page.tsx:42-47 | The totals have a key for every profile and every owner, and each value is the number of listed habits that id owns. Habits whose owner is null or `""` (falsy) are skipped |
| Stats.OwnerOf | src/app/stats/page.tsx:58 | An owner found for an id is the owner of a listed habit with that id |
| Stats.FetchWindow | src/app/stats/page.tsx:49-59 | Each fetched row is a completed check-in of a listed habit inside the window, carrying that habit's owner. Every such check-in is fetched |
| Stats.GroupByDateUser | src/app/stats/page.tsx:61-73 | For every date and profile, the grouped set is exactly the set of ids of that profile's rows on that date, rows with a falsy owner left out. Repeated check-ins count once |
| Stats.CountOwnedSkipsEmpty | src/app/stats/page.tsx:45 | A habit whose owner is `""` adds to no total |
| Stats.ValidOwnersTruthy | src/app/stats/page.tsx:45 | In a valid store every habit owner is a truthy id, so the falsy-owner guards skip only unowned habits |
| Stats.BuildRow | src/app/stats/page.tsx:81-89 | The row has a percent for exactly every profile. Each is the completion percent of the profile's grouped count over its total |
| Stats.BuildData | src/app/stats/page.tsx:77-91 | Thirty rows, the i-th dated `start + i`, each with a key for every profile |
| Stats.Series | src/app/stats/page.tsx:93-97 | One entry per profile, with its id and name. The colour is the profile's own, or else the palette colour at the profile's position modulo 16 |
| Stats.PaletteDistinct | src/app/stats/page.tsx:7-24 | The palette has 16 pairwise different colours |
| Stats.NearbyFallbackColorsDiffer | src/app/stats/page.tsx:93-97 | Two profiles without a colour, fewer than sixteen positions apart, get different colours |
| Stats.DayPercentBounded | src/app/stats/page.tsx:84-87 | A profile's completed count never exceeds its total, so its percent lies in 0..100, and it is 0 for a profile without habits |
| Stats.HabitIdsUnique | src/app/stats/page.tsx:58 | In a valid store no two habits share an id |
| Stats.OwnerOfUnique | src/app/stats/page.tsx:58 | With unique ids, the owner found for a habit's id is that habit's owner |
| Stats.CompletedByExactly | src/app/stats/page.tsx:49-73 | An id counts for a profile on a date iff it is an unarchived habit of that profile with a completed check-in that day inside the window |
| Stats.StatsPage | src/app/stats/page.tsx:26-97 | Thirty rows dated `today - 29 + i`, each with a key for every profile whose value is the profile's completion percent for that day, at most 100. The series is `Series` of the profiles |

## Left out

- I/O, `fetch`, `async`/`await`, React state batching and rendering are not modelled. Only the state before and after each step is, and how each `fetch` ended is a parameter.
- Prisma and the database are an in-memory store of sequences in creation order; query-engine semantics, transactions and concurrent requests are not modelled.
- The clock is a parameter: `todayISODate` takes the `toISOString()` text, the pages take today's day number.
- Dates.ParseISODateUTC: calendar validity is strict proleptic Gregorian (`1 <= day <= days in month`). How a JavaScript engine judges a day such as Feb 31 in `new Date(...)` is not modelled.
- The pages import `addDaysUTC` and `startOfWeekUTC` from `@/lib/dates`, whose text defines neither. They are modelled as adding whole days and walking back to the requested weekday.
- Days, not `YYYY-MM-DD` strings, key the tracker's and the pages' date maps. `Dates.DayNumberInjective` makes the two keyings equivalent.
- Strings are Dafny strings, whose characters are Unicode scalar values. A lone UTF-16 surrogate, which `request.json()` accepts (`"\ud800"`, length 1, kept by `trim()`), cannot be represented, so `JsString.JsLength` and the schemas do not cover such input.
- `Math.round` on doubles is exact half-up integer rounding. Floating-point error is not modelled.
- `createdAt` is a clock tick. Its `toISOString()` text in the responses, and the response bodies beyond the fields named, are not modelled.
- Row ids are the letter `c` followed by the creation tick. The database's cuid format is not modelled.
- Cookie attributes other than the name, value and max age (`httpOnly`, `sameSite`, `path`) are not modelled.
- The zod issue objects are reduced to a path and a code, and zod's message texts are not modelled. The one custom message ("Provide at least one field to update.") is kept.
- UsersApi.CreateWithCopies: `sourceHabits` has no `orderBy` in the source. The model copies in creation order, the order its lemmas about copies rely on.
- `onAddHabit`, the `busy` flag and the view/focus state of the tracker are UI plumbing and are not modelled. The `users` and `activeUserId` fields passed to the tracker, which it does not read, are not modelled.
- The check-in toggle endpoint, habit update/delete and profile delete are not modelled, nor are their cascades. src/app/api/habits/[id]/checkins/route.ts, src/app/api/habits/[id]/route.ts and src/app/api/users/[id]/route.ts are not part of this model.
- src/components/Dashboard.tsx, src/components/StatsChart.tsx, src/components/Nav.tsx, src/app/profiles/page.tsx and src/app/layout.tsx are presentation and are not part of this model.
- JSX, Tailwind classes and the `Intl.DateTimeFormat` labels are presentation only.
