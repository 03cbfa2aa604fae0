/**
 * The multi-profile stats page (src/app/stats/page.tsx): for each of the
 * last thirty days, each profile's percentage of unarchived habits completed
 * that day, and a chart series per profile with its colour.
 */
module Stats {
  import opened Common
  import opened Model
  import Days
  import Percent

  const WindowDays: nat := 30

  /** The fallback series colours, used round-robin by profile position. */
  const DistinctColors: seq<string> := [
    "#0ea5e9", "#ef4444", "#22c55e", "#f97316", "#a855f7", "#ec4899", "#14b8a6", "#eab308",
    "#3b82f6", "#f43f5e", "#06b6d4", "#84cc16", "#8b5cf6", "#f59e0b", "#10b981", "#6366f1"
  ]

  /** The habit query: every unarchived habit, whoever owns it. */
  function Unarchived(hs: seq<Habit>): (r: seq<Habit>)
    ensures forall h :: h in r <==> h in hs && !h.archived
  {
    if hs == [] then []
    else
      var rest := Unarchived(hs[1..]);
      assert forall h :: h in hs <==> h == hs[0] || h in hs[1..];
      if !hs[0].archived then [hs[0]] + rest else rest
  }

  /** JavaScript truthiness of a nullable id: `null` and `""` are both falsy. */
  predicate Truthy(o: Option<Id>) {
    o.Some? && o.value != ""
  }

  /** The owners the loop meets: the truthy `userId`s of the listed habits. */
  function OwnerIds(hs: seq<Habit>): set<Id> {
    set h | h in hs && Truthy(h.userId) :: h.userId.value
  }

  /** The number of habits in the list owned by `id`, a falsy owner owning none. */
  function CountOwned(hs: seq<Habit>, id: Id): nat {
    if hs == [] then 0
    else CountOwned(hs[..|hs| - 1], id) + (if Counted(hs[|hs| - 1], id) then 1 else 0)
  }

  predicate Counted(h: Habit, id: Id) {
    Truthy(h.userId) && h.userId == Some(id)
  }

  /** Habits whose `userId` is `""` are skipped like those without one. */
  lemma {:induction false} CountOwnedSkipsEmpty(hs: seq<Habit>)
    ensures CountOwned(hs, "") == 0
  {
    if hs != [] {
      CountOwnedSkipsEmpty(hs[..|hs| - 1]);
    }
  }

  lemma {:induction false} CountOwnedOfStranger(hs: seq<Habit>, id: Id)
    requires id !in OwnerIds(hs)
    ensures CountOwned(hs, id) == 0
  {
    if hs != [] {
      var init := hs[..|hs| - 1];
      assert forall h :: h in init ==> h in hs;
      assert hs[|hs| - 1] in hs;
      CountOwnedOfStranger(init, id);
    }
  }

  /**
   * totalByUser: every profile starts at 0, and each habit with a truthy
   * owner adds one to its owner's count; habits whose owner is null or `""`
   * are skipped.
   */
  method TotalByUser(users: seq<User>, hs: seq<Habit>) returns (totals: map<Id, nat>)
    ensures totals.Keys == UserIds(users) + OwnerIds(hs)
    ensures forall id :: id in totals ==> totals[id] == CountOwned(hs, id)
  {
    totals := map[];
    for i := 0 to |users|
      invariant totals.Keys == UserIds(users[..i])
      invariant forall id :: id in totals ==> totals[id] == 0
    {
      assert UserIds(users[..i + 1]) == UserIds(users[..i]) + {users[i].id} by {
        assert users[..i + 1] == users[..i] + [users[i]];
      }
      totals := totals[users[i].id := 0];
    }
    assert users[..|users|] == users;
    for j := 0 to |hs|
      invariant totals.Keys == UserIds(users) + OwnerIds(hs[..j])
      invariant forall id :: id in totals ==> totals[id] == CountOwned(hs[..j], id)
    {
      var h := hs[j];
      assert hs[..j + 1][..j] == hs[..j];
      assert OwnerIds(hs[..j + 1]) == OwnerIds(hs[..j]) + (if Truthy(h.userId) then {h.userId.value} else {}) by {
        assert hs[..j + 1] == hs[..j] + [h];
      }
      forall id ensures CountOwned(hs[..j + 1], id) == CountOwned(hs[..j], id) + (if Counted(h, id) then 1 else 0) {
      }
      if !Truthy(h.userId) {
        continue;
      }
      var id := h.userId.value;
      if id !in totals {
        CountOwnedOfStranger(hs[..j], id);
      }
      totals := totals[id := (if id in totals then totals[id] else 0) + 1];
    }
    assert hs[..|hs|] == hs;
  }

  /** The owner of the first listed habit with this id, as `c.habit.userId` reads it. */
  function OwnerOf(hs: seq<Habit>, habitId: Id): (r: Option<Id>)
    ensures r.Some? ==> exists h :: h in hs && h.id == habitId && h.userId == r
  {
    if hs == [] then None
    else if hs[0].id == habitId then hs[0].userId
    else
      var r := OwnerOf(hs[1..], habitId);
      assert r.Some? ==> exists h :: h in hs[1..] && h.id == habitId && h.userId == r;
      assert forall h :: h in hs[1..] ==> h in hs;
      r
  }

  /** One row of the check-in query, with its habit's owner. */
  datatype Fetched = Fetched(day: Days.Day, habitId: Id, owner: Option<Id>)

  /** The check-in query: completed, dated inside `[start, end]`, of one of the listed habits. */
  function FetchWindow(cs: seq<CheckIn>, hs: seq<Habit>, start: Days.Day, end: Days.Day): (r: seq<Fetched>)
    ensures forall f :: f in r ==>
      f.habitId in HabitIds(hs) && start <= f.day <= end && f.owner == OwnerOf(hs, f.habitId)
      && HasCompletedCheckIn(cs, f.habitId, f.day)
    ensures forall c :: c in cs && c.completed && start <= c.day <= end && c.habitId in HabitIds(hs) ==>
      Fetched(c.day, c.habitId, OwnerOf(hs, c.habitId)) in r
  {
    if cs == [] then []
    else
      var rest := FetchWindow(cs[1..], hs, start, end);
      var c := cs[0];
      assert forall f :: f in rest ==> HasCompletedCheckIn(cs, f.habitId, f.day) by {
        forall f | f in rest ensures HasCompletedCheckIn(cs, f.habitId, f.day) {
          var x :| x in cs[1..] && x.habitId == f.habitId && x.day == f.day && x.completed;
          assert x in cs;
        }
      }
      if c.completed && start <= c.day <= end && c.habitId in HabitIds(hs) then
        [Fetched(c.day, c.habitId, OwnerOf(hs, c.habitId))] + rest
      else rest
  }

  /** The set `byDateUser[d][u]` stands for: ids of the rows dated `d` whose habit `u` owns, `u` truthy. */
  function CompletedBy(fs: seq<Fetched>, d: Days.Day, u: Id): set<Id> {
    set f | f in fs && f.day == d && Truthy(f.owner) && f.owner == Some(u) :: f.habitId
  }

  /** `byDateUser.get(d)?.get(u)`, an absent entry read as the empty set. */
  function Lookup(byDateUser: map<Days.Day, map<Id, set<Id>>>, d: Days.Day, u: Id): set<Id> {
    if d in byDateUser && u in byDateUser[d] then byDateUser[d][u] else {}
  }

  lemma CompletedByStep(fs: seq<Fetched>, f: Fetched, d: Days.Day, u: Id)
    ensures CompletedBy(fs + [f], d, u) ==
      CompletedBy(fs, d, u) + (if f.day == d && Truthy(f.owner) && f.owner == Some(u) then {f.habitId} else {})
  {
    assert forall g :: g in fs + [f] <==> g in fs || g == f;
  }

  /** byDateUser: rows grouped by date, then by owner, into sets of habit ids. */
  method GroupByDateUser(fs: seq<Fetched>) returns (byDateUser: map<Days.Day, map<Id, set<Id>>>)
    ensures forall d, u :: Lookup(byDateUser, d, u) == CompletedBy(fs, d, u)
  {
    byDateUser := map[];
    for k := 0 to |fs|
      invariant forall d, u :: Lookup(byDateUser, d, u) == CompletedBy(fs[..k], d, u)
    {
      var c := fs[k];
      assert fs[..k + 1] == fs[..k] + [c];
      forall d, u {
        CompletedByStep(fs[..k], c, d, u);
      }
      if !Truthy(c.owner) {
        continue;
      }
      var userId := c.owner.value;
      var userMap := if c.day in byDateUser then byDateUser[c.day] else map[];
      var ids := if userId in userMap then userMap[userId] else {};
      ids := ids + {c.habitId};
      userMap := userMap[userId := ids];
      byDateUser := byDateUser[c.day := userMap];
    }
    assert fs[..|fs|] == fs;
  }

  /** `totalByUser.get(u) ?? 0` */
  function TotalOf(totals: map<Id, nat>, u: Id): nat {
    if u in totals then totals[u] else 0
  }

  /** One chart row: the date and one percent per profile id. */
  datatype Row = Row(date: Days.Day, percents: map<Id, nat>)

  /** The percent the page shows for profile `u` on day `d`. */
  function RowPercent(totals: map<Id, nat>, byDateUser: map<Days.Day, map<Id, set<Id>>>, d: Days.Day, u: Id): nat {
    Percent.CompletionPercent(|Lookup(byDateUser, d, u)|, TotalOf(totals, u))
  }

  /** The loop over profiles that fills one row. */
  method BuildRow(d: Days.Day, users: seq<User>, totals: map<Id, nat>, byDateUser: map<Days.Day, map<Id, set<Id>>>)
    returns (row: Row)
    ensures row.date == d && row.percents.Keys == UserIds(users)
    ensures forall u :: u in row.percents ==> row.percents[u] == RowPercent(totals, byDateUser, d, u)
  {
    var percents: map<Id, nat> := map[];
    for i := 0 to |users|
      invariant percents.Keys == UserIds(users[..i])
      invariant forall u :: u in percents ==> percents[u] == RowPercent(totals, byDateUser, d, u)
    {
      assert UserIds(users[..i + 1]) == UserIds(users[..i]) + {users[i].id} by {
        assert users[..i + 1] == users[..i] + [users[i]];
      }
      var u := users[i].id;
      var total := TotalOf(totals, u);
      var completed := |Lookup(byDateUser, d, u)|;
      percents := percents[u := Percent.CompletionPercent(completed, total)];
    }
    assert users[..|users|] == users;
    row := Row(d, percents);
  }

  /** `Array.from({ length: 30 }, ...)`: one row per day from `start`, oldest first. */
  method BuildData(start: Days.Day, users: seq<User>, totals: map<Id, nat>, byDateUser: map<Days.Day, map<Id, set<Id>>>)
    returns (data: seq<Row>)
    ensures |data| == WindowDays
    ensures forall i :: 0 <= i < |data| ==>
      && data[i].date == Days.AddDays(start, i)
      && data[i].percents.Keys == UserIds(users)
      && forall u :: u in data[i].percents ==> data[i].percents[u] == RowPercent(totals, byDateUser, data[i].date, u)
  {
    data := [];
    for i := 0 to WindowDays
      invariant |data| == i
      invariant forall k :: 0 <= k < i ==>
        && data[k].date == Days.AddDays(start, k)
        && data[k].percents.Keys == UserIds(users)
        && forall u :: u in data[k].percents ==> data[k].percents[u] == RowPercent(totals, byDateUser, data[k].date, u)
    {
      var row := BuildRow(Days.AddDays(start, i), users, totals, byDateUser);
      data := data + [row];
    }
  }

  datatype SeriesEntry = SeriesEntry(userId: Id, name: string, color: string)

  /** series: each profile's own colour, or else the palette colour for its position. */
  function Series(users: seq<User>): (r: seq<SeriesEntry>)
    ensures |r| == |users|
    ensures forall i :: 0 <= i < |users| ==>
      r[i].userId == users[i].id && r[i].name == users[i].name
      && (users[i].color.Some? ==> r[i].color == users[i].color.value)
      && (users[i].color.None? ==> r[i].color == DistinctColors[i % |DistinctColors|])
  {
    seq(|users|, i requires 0 <= i < |users| =>
      SeriesEntry(users[i].id, users[i].name, users[i].color.GetOr(DistinctColors[i % |DistinctColors|])))
  }

  /**
   * A number that equal strings share: the codes of the second and third
   * characters, as `code(s[1]) * 256 + code(s[2])` ("#0ea5e9" gives
   * 48 * 256 + 101 = 12389). The sixteen palette entries get sixteen
   * different keys, so no two entries are equal.
   */
  function ColorKey(s: string): int {
    if |s| < 3 then 0 else s[1] as int * 256 + s[2] as int
  }

  /** The palette has sixteen different colours. */
  lemma PaletteDistinct()
    ensures |DistinctColors| == 16
    ensures forall i, j :: 0 <= i < j < 16 ==> DistinctColors[i] != DistinctColors[j]
  {
    var keys := seq(16, i requires 0 <= i < 16 => ColorKey(DistinctColors[i]));
    assert keys == [12389, 25958, 12850, 26169, 24888, 25955, 12596, 25953,
                    13154, 26164, 12342, 14388, 14434, 26165, 12592, 13875];
    forall i, j | 0 <= i < j < 16 ensures DistinctColors[i] != DistinctColors[j] {
      assert keys[i] != keys[j];
    }
  }

  /** Two profiles without a colour of their own, fewer than sixteen places apart, get different colours. */
  lemma NearbyFallbackColorsDiffer(users: seq<User>, i: nat, j: nat)
    requires i < j < |users| && j - i < 16
    requires users[i].color.None? && users[j].color.None?
    ensures Series(users)[i].color != Series(users)[j].color
  {
    PaletteDistinct();
    var a, b := i % 16, j % 16;
    assert a != b by {
      if a == b {
        assert false;
      }
    }
  }

  /** The whole page: the window, the totals, the grouped check-ins and the rows. */
  method StatsPage(db: Db, today: Days.Day) returns (data: seq<Row>, series: seq<SeriesEntry>)
    requires Valid(db)
    ensures |data| == WindowDays && series == Series(db.users)
    ensures forall i :: 0 <= i < |data| ==>
      && data[i].date == today - 29 + i
      && data[i].percents.Keys == UserIds(db.users)
      && forall u :: u in data[i].percents ==>
           data[i].percents[u] == DayPercent(db, today - 29, today, data[i].date, u)
           && data[i].percents[u] <= 100
  {
    var start := Days.AddDays(today, -(WindowDays - 1));
    var hs := Unarchived(db.habits);
    var totals := TotalByUser(db.users, hs);
    var fetched: seq<Fetched> := [];
    if |hs| > 0 {
      fetched := FetchWindow(db.checkIns, hs, start, today);
    }
    assert fetched == FetchAll(db, start, today);
    var byDateUser := GroupByDateUser(fetched);
    data := BuildData(start, db.users, totals, byDateUser);
    series := Series(db.users);
    forall i, u | 0 <= i < |data| && u in data[i].percents
      ensures data[i].percents[u] == DayPercent(db, start, today, data[i].date, u) && data[i].percents[u] <= 100
    {
      DayPercentBounded(db, start, today, data[i].date, u);
    }
  }

  /** The rows the page fetches: none when there are no unarchived habits. */
  function FetchAll(db: Db, start: Days.Day, end: Days.Day): seq<Fetched> {
    var hs := Unarchived(db.habits);
    if |hs| == 0 then [] else FetchWindow(db.checkIns, hs, start, end)
  }

  /** The percent for profile `u` on day `d`, as the page computes it from the store. */
  function DayPercent(db: Db, start: Days.Day, end: Days.Day, d: Days.Day, u: Id): nat {
    var hs := Unarchived(db.habits);
    var total := CountOwned(hs, u);
    var completed := CompletedBy(FetchAll(db, start, end), d, u);
    Percent.CompletionPercent(|completed|, total)
  }

  /** The ids of the listed habits owned by `u`, a falsy owner owning none. */
  function IdsOwned(hs: seq<Habit>, u: Id): set<Id> {
    set h | h in hs && Counted(h, u) :: h.id
  }

  lemma {:induction false} IdsOwnedCount(hs: seq<Habit>, u: Id)
    ensures |IdsOwned(hs, u)| <= CountOwned(hs, u)
  {
    if hs != [] {
      var init := hs[..|hs| - 1];
      var last := hs[|hs| - 1];
      IdsOwnedCount(init, u);
      assert hs == init + [last];
      var extra: set<Id> := if Counted(last, u) then {last.id} else {};
      assert IdsOwned(hs, u) == IdsOwned(init, u) + extra;
      assert |IdsOwned(init, u) + extra| <= |IdsOwned(init, u)| + |extra|;
    }
  }

  /**
   * Only completed check-ins of `u`'s unarchived habits count, so the
   * completed figure never exceeds the total and the percent lies in [0, 100];
   * a profile with no unarchived habits shows 0.
   */
  lemma DayPercentBounded(db: Db, start: Days.Day, end: Days.Day, d: Days.Day, u: Id)
    ensures var hs := Unarchived(db.habits);
      |CompletedBy(FetchAll(db, start, end), d, u)| <= CountOwned(hs, u)
    ensures DayPercent(db, start, end, d, u) <= 100
    ensures CountOwned(Unarchived(db.habits), u) == 0 ==> DayPercent(db, start, end, d, u) == 0
  {
    var hs := Unarchived(db.habits);
    var fs := FetchAll(db, start, end);
    var completed := CompletedBy(fs, d, u);
    assert completed <= IdsOwned(hs, u) by {
      forall x | x in completed ensures x in IdsOwned(hs, u) {
        var f :| f in fs && f.day == d && Truthy(f.owner) && f.owner == Some(u) && f.habitId == x;
        var h :| h in hs && h.id == x && h.userId == Some(u);
        assert Counted(h, u);
      }
    }
    IdsOwnedCount(hs, u);
    SubsetCard(completed, IdsOwned(hs, u));
  }

  lemma SubsetCard(a: set<Id>, b: set<Id>)
    requires a <= b
    ensures |a| <= |b|
  {
    assert b == a + (b - a);
  }

  /** Ids are unique in a valid store, so the habit a row belongs to is the only one with its id. */
  lemma HabitIdsUnique(db: Db)
    requires Valid(db)
    ensures forall h1, h2 :: h1 in db.habits && h2 in db.habits && h1.id == h2.id ==> h1 == h2
  {
    forall h1, h2 | h1 in db.habits && h2 in db.habits && h1.id == h2.id ensures h1 == h2 {
      var i :| 0 <= i < |db.habits| && db.habits[i] == h1;
      var j :| 0 <= j < |db.habits| && db.habits[j] == h2;
      IdForInjective(h1.createdAt, h2.createdAt);
    }
  }

  lemma {:induction false} OwnerOfUnique(hs: seq<Habit>, h: Habit)
    requires h in hs
    requires forall h1, h2 :: h1 in hs && h2 in hs && h1.id == h2.id ==> h1 == h2
    ensures OwnerOf(hs, h.id) == h.userId
  {
    if hs[0] != h {
      assert h in hs[1..];
      assert forall x :: x in hs[1..] ==> x in hs;
      OwnerOfUnique(hs[1..], h);
    }
  }

  /**
   * In a valid store a habit id counts for `u` on day `d` exactly when it is
   * an unarchived habit of `u` with a completed check-in on `d` inside the window.
   */
  lemma CompletedByExactly(db: Db, start: Days.Day, end: Days.Day, d: Days.Day, u: Id, x: Id)
    requires Valid(db)
    ensures x in CompletedBy(FetchAll(db, start, end), d, u) <==>
      start <= d <= end && HasCompletedCheckIn(db.checkIns, x, d)
      && exists h :: h in db.habits && !h.archived && h.id == x && h.userId == Some(u)
  {
    var hs := Unarchived(db.habits);
    var fs := FetchAll(db, start, end);
    if x in CompletedBy(fs, d, u) {
      var f :| f in fs && f.day == d && Truthy(f.owner) && f.owner == Some(u) && f.habitId == x;
      var h :| h in hs && h.id == x && h.userId == Some(u);
      assert h in db.habits && !h.archived;
    }
    if start <= d <= end && HasCompletedCheckIn(db.checkIns, x, d)
      && exists h :: h in db.habits && !h.archived && h.id == x && h.userId == Some(u)
    {
      var h :| h in db.habits && !h.archived && h.id == x && h.userId == Some(u);
      var c :| c in db.checkIns && c.habitId == x && c.day == d && c.completed;
      assert h in hs;
      HabitIdsUnique(db);
      OwnerOfUnique(hs, h);
      ValidOwnersTruthy(db, h);
      assert Fetched(d, x, Some(u)) in fs;
    }
  }

  /** In a valid store every owner is an existing profile, whose id is never `""`. */
  lemma ValidOwnersTruthy(db: Db, h: Habit)
    requires Valid(db) && h in db.habits && h.userId.Some?
    ensures Truthy(h.userId)
  {
    var i :| 0 <= i < |db.habits| && db.habits[i] == h;
    var j :| 0 <= j < |db.users| && db.users[j].id == h.userId.value;
    assert IdFor(db.users[j].createdAt)[0] == 'c';
  }
}
