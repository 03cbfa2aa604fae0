/**
 * The habits endpoint (src/app/api/habits/route.ts): GET lists the active
 * profile's habits with a completed flag for one date, POST creates a habit
 * for the active profile. `GetSpec` and `PostSpec` give the new store and
 * the response; the methods perform them on a `Store`.
 */
module HabitsApi {
  import opened Common
  import opened Model
  import opened Store
  import Schemas
  import Dates
  import Pattern
  import Days

  datatype AnnotatedHabit = AnnotatedHabit(habit: Habit, completed: bool)

  datatype GetResponse =
    | BadDate(message: string)
    | Listed(date: string, habits: seq<AnnotatedHabit>)
  {
    function Status(): int {
      if BadDate? then 400 else 200
    }
  }

  /** The ids the check-in query returns: completed check-ins on `day` of the listed habits. */
  function CompletedIds(cs: seq<CheckIn>, habitIds: set<Id>, day: Days.Day): set<Id> {
    set c | c in cs && c.day == day && c.completed && c.habitId in habitIds :: c.habitId
  }

  /** Each habit, in order, flagged with whether a completed check-in exists for it on `day`. */
  function Annotate(hs: seq<Habit>, cs: seq<CheckIn>, day: Days.Day): (r: seq<AnnotatedHabit>)
    ensures |r| == |hs|
    ensures forall i :: 0 <= i < |hs| ==>
      r[i].habit == hs[i] && (r[i].completed <==> HasCompletedCheckIn(cs, hs[i].id, day))
  {
    var done := CompletedIds(cs, HabitIds(hs), day);
    assert forall i :: 0 <= i < |hs| ==> hs[i].id in HabitIds(hs);
    seq(|hs|, i requires 0 <= i < |hs| => AnnotatedHabit(hs[i], hs[i].id in done))
  }

  function Unannotated(r: seq<AnnotatedHabit>): (hs: seq<Habit>)
    ensures |hs| == |r| && forall i :: 0 <= i < |r| ==> hs[i] == r[i].habit
  {
    seq(|r|, i requires 0 <= i < |r| => r[i].habit)
  }

  /** The date string the handler works on: the query parameter, or today when it is absent. */
  function RequestedDate(dateParam: Option<string>, nowIso: string): string {
    dateParam.GetOr(Dates.TodayISODate(nowIso))
  }

  /** GET: parse the date first; only a valid date resolves the profile and reads the store. */
  function GetSpec(db: Db, cookie: Option<string>, dateParam: Option<string>, nowIso: string): (r: (Db, GetResponse))
    requires Valid(db)
    ensures Valid(r.0)
  {
    var dateStr := RequestedDate(dateParam, nowIso);
    match Dates.ParseISODateUTC(dateStr)
    case Failure(e) => (db, BadDate(Dates.ErrorMessage(e)))
    case Success(d) =>
      var (db', userId) := ResolveActive(db, cookie);
      var hs := ActiveOwnedBy(db'.habits, userId);
      (db', Listed(dateStr, Annotate(hs, db'.checkIns, Dates.DayNumber(d))))
  }

  /** A date that fails to parse gives 400 with the parse error's message and leaves the store untouched. */
  lemma GetRejectsBadDate(db: Db, cookie: Option<string>, dateParam: Option<string>, nowIso: string)
    requires Valid(db)
    requires Dates.ParseISODateUTC(RequestedDate(dateParam, nowIso)).Failure?
    ensures var r := GetSpec(db, cookie, dateParam, nowIso);
      r.0 == db && r.1.Status() == 400
      && r.1 == BadDate(Dates.ErrorMessage(Dates.ParseISODateUTC(RequestedDate(dateParam, nowIso)).error))
  {
  }

  /** In particular a malformed date gets the format message. */
  lemma GetRejectsMalformedDate(db: Db, cookie: Option<string>, date: string, nowIso: string)
    requires Valid(db) && !Pattern.DateShaped(date)
    ensures GetSpec(db, cookie, Some(date), nowIso) == (db, BadDate("Invalid date format. Expected YYYY-MM-DD."))
  {
  }

  /** Without a date parameter the handler answers for today's date string. */
  lemma GetDefaultsToToday(db: Db, cookie: Option<string>, nowIso: string)
    requires Valid(db)
    requires GetSpec(db, cookie, None, nowIso).1.Listed?
    ensures GetSpec(db, cookie, None, nowIso).1.date == Dates.Slice10(nowIso)
  {
  }

  /**
   * A listed response holds the active profile's unarchived habits, in
   * ascending `createdAt` order, each flagged completed iff a completed
   * check-in exists for it on the requested day.
   */
  lemma GetListsActiveHabits(db: Db, cookie: Option<string>, dateParam: Option<string>, nowIso: string)
    requires Valid(db)
    requires Dates.ParseISODateUTC(RequestedDate(dateParam, nowIso)).Success?
    ensures var r := GetSpec(db, cookie, dateParam, nowIso);
      var (db', userId) := ResolveActive(db, cookie);
      var d := Dates.ParseISODateUTC(RequestedDate(dateParam, nowIso)).value;
      && r.0 == db' && r.1.Status() == 200 && r.1.Listed?
      && Unannotated(r.1.habits) == ActiveOwnedBy(db'.habits, userId)
      && HabitsInCreationOrder(Unannotated(r.1.habits))
      && (forall i :: 0 <= i < |r.1.habits| ==>
            (r.1.habits[i].completed <==>
               HasCompletedCheckIn(db'.checkIns, r.1.habits[i].habit.id, Dates.DayNumber(d))))
  {
    var (db', userId) := ResolveActive(db, cookie);
    ActiveOwnedByOrdered(db'.habits, userId);
    var r := GetSpec(db, cookie, dateParam, nowIso);
    assert Unannotated(r.1.habits) == ActiveOwnedBy(db'.habits, userId);
  }

  method Get(store: Store, cookie: Option<string>, dateParam: Option<string>, nowIso: string)
    returns (res: GetResponse)
    requires store.Valid()
    modifies store
    ensures store.Valid()
    ensures (store.State(), res) == GetSpec(old(store.State()), cookie, dateParam, nowIso)
  {
    var dateStr := RequestedDate(dateParam, nowIso);
    var parsed := Dates.ParseISODateUTC(dateStr);
    if parsed.Failure? {
      res := BadDate(Dates.ErrorMessage(parsed.error));
      return;
    }
    var userId := store.GetActiveUserId(cookie);
    var hs := ActiveOwnedBy(store.habits, userId);
    res := Listed(dateStr, Annotate(hs, store.checkIns, Dates.DayNumber(parsed.value)));
  }

  datatype PostResponse =
    | Invalid(issues: seq<Schemas.Issue>)
    | Created(habit: Habit)
  {
    function Status(): int {
      if Invalid? then 400 else 201
    }
  }

  /** POST: validate first; a valid payload creates one habit owned by the active profile. */
  function PostSpec(db: Db, cookie: Option<string>, body: Schemas.Json): (r: (Db, PostResponse))
    requires Valid(db)
    ensures Valid(r.0)
  {
    match Schemas.ParseCreateHabit(body)
    case Failure(issues) => (db, Invalid(issues))
    case Success(input) =>
      var (db', userId) := ResolveActive(db, cookie);
      var row := HabitRow(Some(userId), input.name, input.color);
      (InsertHabits(db', [row]), Created(NewHabits([row], db'.clock)[0]))
  }

  /** An invalid payload gets 400 and changes nothing. */
  lemma PostRejectsInvalid(db: Db, cookie: Option<string>, body: Schemas.Json)
    requires Valid(db) && Schemas.ParseCreateHabit(body).Failure?
    ensures PostSpec(db, cookie, body).0 == db && PostSpec(db, cookie, body).1.Status() == 400
  {
  }

  /**
   * A valid payload gets 201 and appends exactly one habit: unarchived,
   * owned by the active profile, with the trimmed name and the given colour.
   */
  lemma PostCreatesOne(db: Db, cookie: Option<string>, body: Schemas.Json)
    requires Valid(db) && Schemas.ParseCreateHabit(body).Success?
    ensures var r := PostSpec(db, cookie, body);
      var (db', userId) := ResolveActive(db, cookie);
      var input := Schemas.ParseCreateHabit(body).value;
      && r.1.Status() == 201 && r.1.Created?
      && r.0.users == db'.users && r.0.habits == db'.habits + [r.1.habit]
      && r.1.habit.userId == Some(userId) && !r.1.habit.archived
      && r.1.habit.name == input.name && r.1.habit.color == input.color
      && userId in UserIds(r.0.users)
  {
  }

  method Post(store: Store, cookie: Option<string>, body: Schemas.Json) returns (res: PostResponse)
    requires store.Valid()
    modifies store
    ensures store.Valid()
    ensures (store.State(), res) == PostSpec(old(store.State()), cookie, body)
  {
    var parsed := Schemas.ParseCreateHabit(body);
    if parsed.Failure? {
      res := Invalid(parsed.error);
      return;
    }
    var userId := store.GetActiveUserId(cookie);
    var habit := store.CreateHabit(HabitRow(Some(userId), parsed.value.name, parsed.value.color));
    res := Created(habit);
  }
}
