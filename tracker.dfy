/**
 * The tracker component's state and arithmetic
 * (src/components/HabitTracker.tsx): the habit list, the completion map
 * `date -> set of habit ids` with its optimistic updates and roll-backs,
 * and the per-day and averaged completion figures. Dates are day numbers;
 * the component keys them by their `YYYY-MM-DD` string, which is the same
 * key because that string determines the day and vice versa.
 */
module Tracker {
  import opened Common
  import opened Model
  import Days
  import Percent

  /** A habit as the component receives it; `createdAt` is the creation instant the page serialises. */
  datatype HabitView = HabitView(id: Id, name: string, color: Option<string>, createdAt: nat)

  type CompletedMap = map<Days.Day, set<Id>>

  datatype InitialData = InitialData(
    today: Days.Day,
    weekStart: Days.Day,
    habits: seq<HabitView>,
    completedByDate: map<Days.Day, seq<Id>>)

  /**
   * How a `fetch` ends: with a response and its `ok` flag, or rejected (a
   * network error) with the thrown value, given as its message when it is
   * an `Error` and as None otherwise.
   */
  datatype FetchOutcome = Response(ok: bool) | Rejected(thrownMessage: Option<string>)

  const ToggleFailed := "Failed to update check-in"
  const DeleteFailed := "Failed to delete habit"

  function ToSet(ids: seq<Id>): set<Id> {
    set i | i in ids
  }

  /** Some element of a non-empty set; the order of iteration does not matter to the loops below. */
  method Pick(s: set<Days.Day>) returns (d: Days.Day)
    requires s != {}
    ensures d in s
  {
    // The solver needs set extensionality to find a member: a set none of
    // whose values is a member would be equal to {}.
    if forall x :: x !in s {
      assert false;
    }
    d :| d in s;
  }

  /** isCompleted: a date without an entry has nothing completed. */
  predicate IsCompleted(m: CompletedMap, d: Days.Day, habitId: Id) {
    d in m && habitId in m[d]
  }

  lemma NoEntryNothingCompleted(m: CompletedMap, d: Days.Day, habitId: Id)
    requires d !in m
    ensures !IsCompleted(m, d, habitId)
  {
  }

  /** buildCompletedMap: one set per date, holding exactly that date's ids. */
  method BuildCompletedMap(initial: map<Days.Day, seq<Id>>) returns (m: CompletedMap)
    ensures m.Keys == initial.Keys
    ensures forall d :: d in m ==> m[d] == ToSet(initial[d])
    ensures forall d, h :: IsCompleted(m, d, h) <==> d in initial && h in initial[d]
  {
    m := map[];
    var todo: set<Days.Day> := initial.Keys;
    while todo != {}
      invariant todo <= initial.Keys
      invariant m.Keys == initial.Keys - todo
      invariant forall d :: d in m ==> m[d] == ToSet(initial[d])
      decreases |todo|
    {
      var d := Pick(todo);
      m := m[d := ToSet(initial[d])];
      todo := todo - {d};
    }
    assert m.Keys == initial.Keys;
  }

  /** The map setCompletedValue produces: one membership set to `value`, every other kept. */
  function WithValue(m: CompletedMap, d: Days.Day, habitId: Id, value: bool): (r: CompletedMap)
    ensures r.Keys == m.Keys + {d}
    ensures IsCompleted(r, d, habitId) == value
    ensures forall d', h' :: d' != d || h' != habitId ==>
      (IsCompleted(r, d', h') <==> IsCompleted(m, d', h'))
  {
    var prev := if d in m then m[d] else {};
    m[d := if value then prev + {habitId} else prev - {habitId}]
  }

  /** Setting a membership back to what it was restores every membership. */
  lemma RollbackRestores(m: CompletedMap, d: Days.Day, habitId: Id, value: bool)
    ensures var r := WithValue(WithValue(m, d, habitId, value), d, habitId, IsCompleted(m, d, habitId));
      forall d', h' :: IsCompleted(r, d', h') <==> IsCompleted(m, d', h')
  {
  }

  /** prev.filter(h => h.id !== habitId) */
  function WithoutHabit(hs: seq<HabitView>, habitId: Id): (r: seq<HabitView>)
    ensures forall h :: h in r <==> h in hs && h.id != habitId
    ensures |r| <= |hs|
  {
    if hs == [] then []
    else
      var rest := WithoutHabit(hs[1..], habitId);
      assert forall h :: h in hs <==> h == hs[0] || h in hs[1..];
      if hs[0].id != habitId then [hs[0]] + rest else rest
  }

  /** The map rewrite in deleteHabit: the habit leaves every date's set, and nothing else changes. */
  method DropHabit(prev: CompletedMap, habitId: Id) returns (next: CompletedMap)
    ensures next.Keys == prev.Keys
    ensures forall d :: d in next ==> next[d] == prev[d] - {habitId}
    ensures forall d, h :: IsCompleted(next, d, h) <==> IsCompleted(prev, d, h) && h != habitId
  {
    next := prev;
    var todo: set<Days.Day> := prev.Keys;
    while todo != {}
      invariant todo <= prev.Keys && next.Keys == prev.Keys
      invariant forall d :: d in todo ==> next[d] == prev[d]
      invariant forall d :: d in prev && d !in todo ==> next[d] == prev[d] - {habitId}
      decreases |todo|
    {
      var d := Pick(todo);
      next := next[d := prev[d] - {habitId}];
      todo := todo - {d};
    }
  }

  class Tracker {
    var habits: seq<HabitView>
    var completed: CompletedMap
    var error: Option<string>
    const today: Days.Day
    const weekStart: Days.Day

    constructor (initial: InitialData)
      ensures habits == initial.habits && error == None
      ensures today == initial.today && weekStart == initial.weekStart
      ensures forall d, h :: IsCompleted(completed, d, h) <==>
        d in initial.completedByDate && h in initial.completedByDate[d]
    {
      today := initial.today;
      weekStart := initial.weekStart;
      habits := initial.habits;
      error := None;
      var m := BuildCompletedMap(initial.completedByDate);
      completed := m;
    }

    method SetCompletedValue(date: Days.Day, habitId: Id, value: bool)
      modifies this
      ensures completed == WithValue(old(completed), date, habitId, value)
      ensures habits == old(habits) && error == old(error)
    {
      var ids := if date in completed then completed[date] else {};
      if value {
        ids := ids + {habitId};
      } else {
        ids := ids - {habitId};
      }
      completed := completed[date := ids];
    }

    /**
     * toggle: flip the membership at once. When the server answers with an
     * error, set it back and report the failure; when `fetch` itself
     * rejects, nothing catches it, so the flip stays and no error is shown.
     */
    method Toggle(date: Days.Day, habitId: Id, outcome: FetchOutcome)
      modifies this
      ensures habits == old(habits)
      ensures outcome != Response(false) ==>
        && error == None
        && IsCompleted(completed, date, habitId) == !IsCompleted(old(completed), date, habitId)
        && completed == WithValue(old(completed), date, habitId, !IsCompleted(old(completed), date, habitId))
      ensures outcome == Response(false) ==>
        && error == Some(ToggleFailed)
        && (forall d, h :: IsCompleted(completed, d, h) <==> IsCompleted(old(completed), d, h))
        && completed.Keys == old(completed).Keys + {date}
    {
      var nextValue := !IsCompleted(completed, date, habitId);
      error := None;
      SetCompletedValue(date, habitId, nextValue);
      if outcome == Response(false) {
        SetCompletedValue(date, habitId, !nextValue);
        error := Some(ToggleFailed);
        RollbackRestores(old(completed), date, habitId, nextValue);
      }
    }

    /**
     * deleteHabit: on success the habit leaves the list and every date's set.
     * A failed response throws "Failed to delete habit"; a rejected `fetch`
     * shows the thrown error's own message, or that text when the thrown
     * value is not an `Error`.
     */
    method DeleteHabit(habitId: Id, outcome: FetchOutcome)
      modifies this
      ensures outcome == Response(true) ==>
        && error == None
        && habits == WithoutHabit(old(habits), habitId)
        && completed.Keys == old(completed).Keys
        && (forall d, h :: IsCompleted(completed, d, h) <==> IsCompleted(old(completed), d, h) && h != habitId)
      ensures outcome != Response(true) ==> habits == old(habits) && completed == old(completed)
      ensures outcome == Response(false) ==> error == Some(DeleteFailed)
      ensures outcome.Rejected? ==> error == Some(outcome.thrownMessage.GetOr(DeleteFailed))
    {
      error := None;
      match outcome {
        case Response(ok) =>
          if !ok {
            error := Some(DeleteFailed);
            return;
          }
        case Rejected(thrownMessage) =>
          error := Some(thrownMessage.GetOr(DeleteFailed));
          return;
      }
      habits := WithoutHabit(habits, habitId);
      var next := DropHabit(completed, habitId);
      completed := next;
    }
  }

  datatype DayStats = DayStats(done: nat, total: nat, percent: nat)

  /** The positions in the list whose habit is completed on `d`. */
  function DoneIndices(hs: seq<HabitView>, m: CompletedMap, d: Days.Day): set<int> {
    set i | 0 <= i < |hs| && IsCompleted(m, d, hs[i].id)
  }

  /** The `reduce` that counts completed habits. */
  function CountDone(hs: seq<HabitView>, m: CompletedMap, d: Days.Day): (n: nat)
    ensures n <= |hs|
  {
    if hs == [] then 0
    else CountDone(hs[..|hs| - 1], m, d) + (if IsCompleted(m, d, hs[|hs| - 1].id) then 1 else 0)
  }

  /** The count is the number of listed habits completed that day. */
  lemma {:induction false} CountDoneIsCardinality(hs: seq<HabitView>, m: CompletedMap, d: Days.Day)
    ensures CountDone(hs, m, d) == |DoneIndices(hs, m, d)|
  {
    if hs != [] {
      var init := hs[..|hs| - 1];
      CountDoneIsCardinality(init, m, d);
      var last := |hs| - 1;
      var extra: set<int> := if IsCompleted(m, d, hs[last].id) then {last} else {};
      assert DoneIndices(hs, m, d) == DoneIndices(init, m, d) + extra by {
        forall i | i in DoneIndices(hs, m, d) ensures i in DoneIndices(init, m, d) + extra {
          if i < last { assert init[i] == hs[i]; }
        }
        forall i | i in DoneIndices(init, m, d) ensures i in DoneIndices(hs, m, d) {
          assert init[i] == hs[i];
        }
      }
      assert last !in DoneIndices(init, m, d);
    }
  }

  /** statsForDate */
  function StatsForDate(hs: seq<HabitView>, m: CompletedMap, d: Days.Day): (s: DayStats)
    ensures s.total == |hs| && s.done <= s.total
    ensures s.done == |DoneIndices(hs, m, d)|
    ensures s.total == 0 ==> s.percent == 0
    ensures s.total > 0 ==> 2 * s.total * s.percent <= 200 * s.done + s.total < 2 * s.total * (s.percent + 1)
    ensures s.percent <= 100
    ensures s.done == s.total > 0 ==> s.percent == 100
  {
    CountDoneIsCardinality(hs, m, d);
    var done, total := CountDone(hs, m, d), |hs|;
    DayStats(done, total, Percent.CompletionPercent(done, total))
  }

  /** The percent of each date, in the order of the dates. */
  function DailyPercents(hs: seq<HabitView>, m: CompletedMap, dates: seq<Days.Day>): (ps: seq<nat>)
    ensures |ps| == |dates|
    ensures forall i :: 0 <= i < |dates| ==> ps[i] == StatsForDate(hs, m, dates[i]).percent && ps[i] <= 100
  {
    seq(|dates|, i requires 0 <= i < |dates| => StatsForDate(hs, m, dates[i]).percent)
  }

  /** Math.round(sum / dates.length) of the daily percents, 0 for no dates. */
  function Average(hs: seq<HabitView>, m: CompletedMap, dates: seq<Days.Day>): (r: nat)
    ensures r <= 100
    ensures |dates| == 0 ==> r == 0
    ensures |dates| > 0 ==> var sum := Percent.Sum(DailyPercents(hs, m, dates));
      2 * |dates| * r <= 2 * sum + |dates| < 2 * |dates| * (r + 1)
  {
    var ps := DailyPercents(hs, m, dates);
    Percent.SumBounded(ps, 100);
    Percent.MeanPercent(Percent.Sum(ps), |dates|)
  }

  /** When every day has the same percent, the average is that percent. */
  lemma AverageOfUniform(hs: seq<HabitView>, m: CompletedMap, dates: seq<Days.Day>, p: nat)
    requires |dates| > 0
    requires forall i :: 0 <= i < |dates| ==> StatsForDate(hs, m, dates[i]).percent == p
    ensures Average(hs, m, dates) == p
  {
    var ps := DailyPercents(hs, m, dates);
    assert ps[0] == p;
    Percent.SumUniform(ps, p);
    Percent.MeanOfUniform(p, |dates|);
  }

  /** The seven days from `weekStart` on. */
  function WeekDates(weekStart: Days.Day): (ds: seq<Days.Day>)
    ensures |ds| == 7
  {
    seq(7, i requires 0 <= i < 7 => Days.AddDays(weekStart, i))
  }

  /** The thirty days ending today, newest first. */
  function HistoryDates(today: Days.Day): (ds: seq<Days.Day>)
    ensures |ds| == 30
  {
    seq(30, i requires 0 <= i < 30 => Days.AddDays(today, -i))
  }

  /** The week is seven consecutive days starting at `weekStart`. */
  lemma WeekDatesConsecutive(weekStart: Days.Day)
    ensures var ds := WeekDates(weekStart);
      && ds[0] == weekStart
      && (forall i :: 0 <= i < 6 ==> ds[i + 1] == ds[i] + 1)
      && (forall d :: d in ds <==> weekStart <= d <= weekStart + 6)
  {
    var ds := WeekDates(weekStart);
    forall d | weekStart <= d <= weekStart + 6 ensures d in ds {
      assert ds[d - weekStart] == d;
    }
  }

  /** The history is today and the 29 days before it, each one day older than the last. */
  lemma HistoryDatesNewestFirst(today: Days.Day)
    ensures var ds := HistoryDates(today);
      && ds[0] == today
      && (forall i :: 0 <= i < 29 ==> ds[i + 1] == ds[i] - 1)
      && (forall d :: d in ds <==> today - 29 <= d <= today)
  {
    var ds := HistoryDates(today);
    forall d | today - 29 <= d <= today ensures d in ds {
      assert ds[today - d] == d;
    }
  }

  /** weekAvg */
  function WeekAvg(hs: seq<HabitView>, m: CompletedMap, weekStart: Days.Day): (r: nat)
    ensures r <= 100
    ensures 14 * r <= 2 * Percent.Sum(DailyPercents(hs, m, WeekDates(weekStart))) + 7 < 14 * (r + 1)
  {
    Average(hs, m, WeekDates(weekStart))
  }

  /** last30Avg */
  function Last30Avg(hs: seq<HabitView>, m: CompletedMap, today: Days.Day): (r: nat)
    ensures r <= 100
    ensures 60 * r <= 2 * Percent.Sum(DailyPercents(hs, m, HistoryDates(today))) + 30 < 60 * (r + 1)
  {
    Average(hs, m, HistoryDates(today))
  }
}
