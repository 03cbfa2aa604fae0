/**
 * The tracker page's loader (src/app/page.tsx): the date windows, the
 * active profile's habits, and the completed check-ins of the window grouped
 * by date into the tracker's initial data.
 */
module Home {
  import opened Common
  import opened Model
  import opened Store
  import Days
  import Tracker

  /** This week (Monday first) and the thirty days up to today. */
  datatype Windows = Windows(weekStart: Days.Day, weekEnd: Days.Day, historyStart: Days.Day)

  function WindowsFor(today: Days.Day): (w: Windows)
    ensures Days.Weekday(w.weekStart) == 1 && today - 6 <= w.weekStart <= today
    ensures w.weekEnd == w.weekStart + 6 && w.historyStart == today - 29
  {
    var weekStart := Days.StartOfWeek(today, 1);
    Windows(weekStart, Days.AddDays(weekStart, 6), Days.AddDays(today, -29))
  }

  /**
   * The fetched range holds today, the thirty history days, and every day
   * of this week, so every date the tracker shows is covered.
   */
  lemma WindowCoversTrackerDates(today: Days.Day)
    ensures var w := WindowsFor(today);
      && today - w.historyStart + 1 == 30
      && w.historyStart <= today <= w.weekEnd
      && (forall d :: d in Tracker.WeekDates(w.weekStart) ==> w.historyStart <= d <= w.weekEnd)
      && (forall d :: d in Tracker.HistoryDates(today) ==> w.historyStart <= d <= w.weekEnd)
  {
    var w := WindowsFor(today);
    Tracker.WeekDatesConsecutive(w.weekStart);
    Tracker.HistoryDatesNewestFirst(today);
  }

  /** One row of the check-in query: its date and habit. */
  datatype Fetched = Fetched(day: Days.Day, habitId: Id)

  /** The check-in query: completed, dated inside `[from, to]`, of one of the listed habits. */
  function FetchCompleted(cs: seq<CheckIn>, ids: set<Id>, from: Days.Day, to: Days.Day): (r: seq<Fetched>)
    ensures forall f :: f in r <==>
      f.habitId in ids && from <= f.day <= to && HasCompletedCheckIn(cs, f.habitId, f.day)
  {
    if cs == [] then []
    else
      var rest := FetchCompleted(cs[1..], ids, from, to);
      var c := cs[0];
      assert forall h, d :: HasCompletedCheckIn(cs, h, d) <==>
        (c.habitId == h && c.day == d && c.completed) || HasCompletedCheckIn(cs[1..], h, d) by {
        forall h, d ensures HasCompletedCheckIn(cs, h, d) ==>
          (c.habitId == h && c.day == d && c.completed) || HasCompletedCheckIn(cs[1..], h, d)
        {
          if HasCompletedCheckIn(cs, h, d) {
            var x :| x in cs && x.habitId == h && x.day == d && x.completed;
            if x != c {
              var k :| 0 <= k < |cs| && cs[k] == x;
              assert cs[1..][k - 1] == x;
            }
          }
        }
        assert forall x :: x in cs[1..] ==> x in cs;
      }
      if c.completed && from <= c.day <= to && c.habitId in ids then [Fetched(c.day, c.habitId)] + rest else rest
  }

  /** The ids pushed under date `d`, in the order of the rows. */
  function IdsOn(fs: seq<Fetched>, d: Days.Day): (ids: seq<Id>)
    ensures forall x :: x in ids <==> Fetched(d, x) in fs
    ensures (forall g :: g in fs ==> g.day != d) ==> ids == []
  {
    if fs == [] then []
    else
      var init := IdsOn(fs[..|fs| - 1], d);
      var f := fs[|fs| - 1];
      assert forall g :: g in fs <==> g in fs[..|fs| - 1] || g == f by {
        assert fs == fs[..|fs| - 1] + [f];
      }
      if f.day == d then init + [f.habitId] else init
  }

  /** The positions of the rows dated `d`. */
  function RowsOn(fs: seq<Fetched>, d: Days.Day): set<int> {
    set j | 0 <= j < |fs| && fs[j].day == d
  }

  /** Adding the last row adds at most its own position. */
  lemma RowsOnStep(fs: seq<Fetched>, d: Days.Day)
    requires fs != []
    ensures RowsOn(fs, d) ==
      RowsOn(fs[..|fs| - 1], d) + (if fs[|fs| - 1].day == d then {|fs| - 1} else {})
  {
    var init := fs[..|fs| - 1];
    forall j | j in RowsOn(fs, d) && j < |fs| - 1 ensures j in RowsOn(init, d) {
      assert init[j] == fs[j];
    }
    forall j | j in RowsOn(init, d) ensures j in RowsOn(fs, d) {
      assert init[j] == fs[j];
    }
  }

  /** Every row dated `d` contributes exactly one entry to that date's list. */
  lemma {:induction false} IdsOnCountsRows(fs: seq<Fetched>, d: Days.Day)
    ensures |IdsOn(fs, d)| == |RowsOn(fs, d)|
  {
    if fs != [] {
      var init := fs[..|fs| - 1];
      IdsOnCountsRows(init, d);
      RowsOnStep(fs, d);
      assert |fs| - 1 !in RowsOn(init, d);
    }
  }

  function DaysOf(fs: seq<Fetched>): set<Days.Day> {
    set f | f in fs :: f.day
  }

  /** completedByDate as a value: one list per date that has rows. */
  function Grouped(fs: seq<Fetched>): map<Days.Day, seq<Id>> {
    map d | d in DaysOf(fs) :: IdsOn(fs, d)
  }

  /**
   * completedByDate[k] lists exactly the habit ids of the rows dated k, one
   * entry per row, so no row is dropped; a date without rows has no key.
   */
  lemma GroupedExactly(fs: seq<Fetched>)
    ensures forall d, x :: d in Grouped(fs) && x in Grouped(fs)[d] <==> Fetched(d, x) in fs
    ensures forall d :: d in Grouped(fs) ==> |Grouped(fs)[d]| == |RowsOn(fs, d)|
    ensures forall j :: 0 <= j < |fs| ==> fs[j].day in Grouped(fs) && fs[j].habitId in Grouped(fs)[fs[j].day]
  {
    forall d | d in Grouped(fs) ensures |Grouped(fs)[d]| == |RowsOn(fs, d)| {
      IdsOnCountsRows(fs, d);
    }
    forall j | 0 <= j < |fs| ensures fs[j].day in Grouped(fs) && fs[j].habitId in Grouped(fs)[fs[j].day] {
      assert fs[j] in fs;
    }
  }

  lemma GroupedStep(s: seq<Fetched>, f: Fetched)
    ensures Grouped(s + [f]) ==
      Grouped(s)[f.day := (if f.day in Grouped(s) then Grouped(s)[f.day] else []) + [f.habitId]]
  {
    var t := s + [f];
    assert t[..|t| - 1] == s;
    assert DaysOf(t) == DaysOf(s) + {f.day} by {
      assert forall g :: g in t <==> g in s || g == f;
    }
    if f.day !in DaysOf(s) {
      assert forall g :: g in s ==> g.day != f.day;
    }
  }

  /** The loop of the page: `(completedByDate[key] ??= []).push(c.habitId)` for each row. */
  method GroupByDay(fs: seq<Fetched>) returns (m: map<Days.Day, seq<Id>>)
    ensures m == Grouped(fs)
  {
    m := map[];
    for k := 0 to |fs|
      invariant m == Grouped(fs[..k])
    {
      var f := fs[k];
      GroupedStep(fs[..k], f);
      assert fs[..k + 1] == fs[..k] + [f];
      m := m[f.day := (if f.day in m then m[f.day] else []) + [f.habitId]];
    }
    assert fs[..|fs|] == fs;
  }

  function View(h: Habit): Tracker.HabitView {
    Tracker.HabitView(h.id, h.name, h.color, h.createdAt)
  }

  function Views(hs: seq<Habit>): (vs: seq<Tracker.HabitView>)
    ensures |vs| == |hs| && forall i :: 0 <= i < |hs| ==> vs[i] == View(hs[i])
  {
    seq(|hs|, i requires 0 <= i < |hs| => View(hs[i]))
  }

  /** The rows fetched for the page: none when the profile has no habits. */
  function FetchForHome(db: Db, hs: seq<Habit>, w: Windows): seq<Fetched> {
    if |hs| == 0 then [] else FetchCompleted(db.checkIns, HabitIds(hs), w.historyStart, w.weekEnd)
  }

  /** The grouped rows hold exactly the completed check-ins of the listed habits inside the window. */
  lemma GroupedFetchAt(db: Db, hs: seq<Habit>, w: Windows, d: Days.Day, h: Id)
    ensures var byDate := Grouped(FetchForHome(db, hs, w));
      d in byDate && h in byDate[d] <==>
        w.historyStart <= d <= w.weekEnd && h in HabitIds(hs) && HasCompletedCheckIn(db.checkIns, h, d)
  {
    var fs := FetchForHome(db, hs, w);
    GroupedExactly(fs);
    if |hs| == 0 {
      assert HabitIds(hs) == {};
    } else {
      assert Fetched(d, h) in fs <==>
        w.historyStart <= d <= w.weekEnd && h in HabitIds(hs) && HasCompletedCheckIn(db.checkIns, h, d);
    }
  }

  /** Home(): resolve the active profile, load its habits and the window's check-ins. */
  function HomeSpec(db: Db, cookie: Option<string>, today: Days.Day): (r: (Db, Tracker.InitialData))
    requires Valid(db)
    ensures Valid(r.0)
  {
    var (db', userId) := ResolveActive(db, cookie);
    var w := WindowsFor(today);
    var hs := ActiveOwnedBy(db'.habits, userId);
    (db', Tracker.InitialData(today, w.weekStart, Views(hs), Grouped(FetchForHome(db', hs, w))))
  }

  /**
   * The page passes the active profile's unarchived habits, oldest first,
   * and, for each date of the window, exactly the ids of those habits with
   * a completed check-in that day; with no habits it passes no dates at all.
   */
  lemma HomeLoadsActiveProfile(db: Db, cookie: Option<string>, today: Days.Day)
    requires Valid(db)
    ensures var r := HomeSpec(db, cookie, today);
      var (db', userId) := ResolveActive(db, cookie);
      var w := WindowsFor(today);
      var hs := ActiveOwnedBy(db'.habits, userId);
      var byDate := r.1.completedByDate;
      && r.0 == db' && r.1.today == today && r.1.weekStart == w.weekStart
      && r.1.habits == Views(hs) && HabitsInCreationOrder(hs)
      && (|hs| == 0 ==> byDate == map[])
      && (forall d, h :: d in byDate && h in byDate[d] <==>
            w.historyStart <= d <= w.weekEnd && h in HabitIds(hs) && HasCompletedCheckIn(db'.checkIns, h, d))
  {
    var (db', userId) := ResolveActive(db, cookie);
    var w := WindowsFor(today);
    var hs := ActiveOwnedBy(db'.habits, userId);
    ActiveOwnedByOrdered(db'.habits, userId);
    forall d, h {
      GroupedFetchAt(db', hs, w, d, h);
    }
    if |hs| == 0 {
      assert DaysOf([]) == {};
    }
  }

  /**
   * End to end: once the tracker has built its map from this data, a
   * listed habit is completed on a date it shows exactly when a completed
   * check-in exists for it on that date.
   */
  lemma TrackerSeesCheckIns(db: Db, cookie: Option<string>, today: Days.Day, m: Tracker.CompletedMap)
    requires Valid(db)
    requires var byDate := HomeSpec(db, cookie, today).1.completedByDate;
      forall d, h :: Tracker.IsCompleted(m, d, h) <==> d in byDate && h in byDate[d]
    ensures var r := HomeSpec(db, cookie, today);
      forall v, d :: v in r.1.habits && (d in Tracker.WeekDates(r.1.weekStart) || d in Tracker.HistoryDates(today)) ==>
        (Tracker.IsCompleted(m, d, v.id) <==> HasCompletedCheckIn(r.0.checkIns, v.id, d))
  {
    HomeLoadsActiveProfile(db, cookie, today);
    WindowCoversTrackerDates(today);
    var r := HomeSpec(db, cookie, today);
    var (db', userId) := ResolveActive(db, cookie);
    var hs := ActiveOwnedBy(db'.habits, userId);
    forall v | v in r.1.habits ensures v.id in HabitIds(hs) {
      var k :| 0 <= k < |r.1.habits| && r.1.habits[k] == v;
      assert hs[k] in hs;
    }
  }

  method LoadHome(store: Store, cookie: Option<string>, today: Days.Day) returns (initial: Tracker.InitialData)
    requires store.Valid()
    modifies store
    ensures store.Valid() && (store.State(), initial) == HomeSpec(old(store.State()), cookie, today)
  {
    var w := WindowsFor(today);
    var userId := store.GetActiveUserId(cookie);
    var hs := ActiveOwnedBy(store.habits, userId);
    var fetched: seq<Fetched> := [];
    if |hs| > 0 {
      fetched := FetchCompleted(store.checkIns, HabitIds(hs), w.historyStart, w.weekEnd);
    }
    var byDate := GroupByDay(fetched);
    initial := Tracker.InitialData(today, w.weekStart, Views(hs), byDate);
  }
}
