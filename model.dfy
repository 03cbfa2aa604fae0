/**
 * The in-memory store that stands for the relational database: profiles
 * (`User`), habits and check-ins as sequences in insertion order, and a
 * logical clock that stamps each new row's `createdAt` and derives its id.
 */
module Model {
  import opened Common
  import Digits
  import Days

  type Id = string

  /** The id given to the row created at clock tick `n`; ids never repeat. */
  function IdFor(n: nat): Id {
    "c" + Digits.Decimal(n)
  }

  lemma IdForInjective(a: nat, b: nat)
    ensures IdFor(a) == IdFor(b) ==> a == b
  {
    if IdFor(a) == IdFor(b) {
      assert Digits.Decimal(a) == IdFor(a)[1..];
      Digits.DecimalInjective(a, b);
    }
  }

  datatype User = User(id: Id, name: string, color: Option<string>, createdAt: nat)

  /** `userId` is absent for the habits the seed script creates. */
  datatype Habit = Habit(id: Id, userId: Option<Id>, name: string, color: Option<string>, createdAt: nat, archived: bool)

  datatype CheckIn = CheckIn(habitId: Id, day: Days.Day, completed: bool)

  datatype Db = Db(users: seq<User>, habits: seq<Habit>, checkIns: seq<CheckIn>, clock: nat)

  function UserIds(users: seq<User>): set<Id> {
    set u | u in users :: u.id
  }

  function HabitIds(hs: seq<Habit>): set<Id> {
    set h | h in hs :: h.id
  }

  /** A completed check-in of the habit exists on that day. */
  predicate HasCompletedCheckIn(cs: seq<CheckIn>, habitId: Id, day: Days.Day) {
    exists c :: c in cs && c.habitId == habitId && c.day == day && c.completed
  }

  predicate UsersInCreationOrder(users: seq<User>) {
    forall i, j :: 0 <= i < j < |users| ==> users[i].createdAt < users[j].createdAt
  }

  predicate HabitsInCreationOrder(habits: seq<Habit>) {
    forall i, j :: 0 <= i < j < |habits| ==> habits[i].createdAt < habits[j].createdAt
  }

  /**
   * The store invariant: each row's id comes from its creation tick, ticks
   * lie before the clock and grow along each table, and a habit's owner is
   * an existing profile.
   */
  ghost predicate Valid(db: Db) {
    && (forall i :: 0 <= i < |db.users| ==>
          db.users[i].createdAt < db.clock && db.users[i].id == IdFor(db.users[i].createdAt))
    && UsersInCreationOrder(db.users)
    && (forall i :: 0 <= i < |db.habits| ==>
          db.habits[i].createdAt < db.clock && db.habits[i].id == IdFor(db.habits[i].createdAt))
    && HabitsInCreationOrder(db.habits)
    && (forall i :: 0 <= i < |db.habits| && db.habits[i].userId.Some? ==>
          db.habits[i].userId.value in UserIds(db.users))
  }

  lemma ClockIdIsFresh(db: Db)
    requires Valid(db)
    ensures IdFor(db.clock) !in UserIds(db.users)
    ensures forall h :: h in db.habits ==> h.userId != Some(IdFor(db.clock))
  {
    forall i | 0 <= i < |db.users|
      ensures db.users[i].id != IdFor(db.clock)
    {
      IdForInjective(db.users[i].createdAt, db.clock);
    }
  }

  /** `user.create`: one row appended, stamped with the clock. */
  function InsertUser(db: Db, name: string, color: Option<string>): (r: (Db, User))
    requires Valid(db)
    ensures Valid(r.0)
    ensures r.0.users == db.users + [r.1] && r.0.habits == db.habits && r.0.checkIns == db.checkIns
    ensures r.1.id !in UserIds(db.users) && r.1.name == name && r.1.color == color
    ensures UserIds(r.0.users) == UserIds(db.users) + {r.1.id}
  {
    ClockIdIsFresh(db);
    var u := User(IdFor(db.clock), name, color, db.clock);
    var db' := db.(users := db.users + [u], clock := db.clock + 1);
    assert UserIds(db'.users) == UserIds(db.users) + {u.id} by {
      assert forall x :: x in db'.users <==> x in db.users || x == u;
    }
    (db', u)
  }

  /** The data of one row of `habit.createMany`. */
  datatype HabitRow = HabitRow(userId: Option<Id>, name: string, color: Option<string>)

  /** The habits `createMany(rows)` inserts, from clock tick `clock` on, unarchived. */
  function NewHabits(rows: seq<HabitRow>, clock: nat): (hs: seq<Habit>)
    ensures |hs| == |rows|
    ensures forall i :: 0 <= i < |rows| ==>
      hs[i].userId == rows[i].userId && hs[i].name == rows[i].name && hs[i].color == rows[i].color
      && !hs[i].archived && hs[i].createdAt == clock + i
  {
    seq(|rows|, i requires 0 <= i < |rows| =>
      Habit(IdFor(clock + i), rows[i].userId, rows[i].name, rows[i].color, clock + i, false))
  }

  /**
   * The inserted habits get pairwise distinct ids, none of which was handed
   * out before the clock reached `clock`.
   */
  lemma NewHabitsFresh(rows: seq<HabitRow>, clock: nat)
    ensures var hs := NewHabits(rows, clock);
      forall i, j :: 0 <= i < j < |hs| ==> hs[i].id != hs[j].id
    ensures var hs := NewHabits(rows, clock);
      forall i, t: nat :: 0 <= i < |hs| && t < clock ==> hs[i].id != IdFor(t)
  {
    var hs := NewHabits(rows, clock);
    forall i, j | 0 <= i < j < |hs| ensures hs[i].id != hs[j].id {
      IdForInjective(clock + i, clock + j);
    }
    forall i, t: nat | 0 <= i < |hs| && t < clock ensures hs[i].id != IdFor(t) {
      IdForInjective(clock + i, t);
    }
  }

  predicate OwnersExist(rows: seq<HabitRow>, users: seq<User>) {
    forall i :: 0 <= i < |rows| && rows[i].userId.Some? ==> rows[i].userId.value in UserIds(users)
  }

  /** `habit.createMany`: the rows appended in order, the clock advanced past them. */
  function InsertHabits(db: Db, rows: seq<HabitRow>): (r: Db)
    requires Valid(db) && OwnersExist(rows, db.users)
    ensures Valid(r)
    ensures r.users == db.users && r.checkIns == db.checkIns
    ensures r.habits == db.habits + NewHabits(rows, db.clock)
  {
    var hs := NewHabits(rows, db.clock);
    var r := db.(habits := db.habits + hs, clock := db.clock + |rows|);
    assert forall i :: 0 <= i < |hs| ==> hs[i].id == IdFor(hs[i].createdAt);
    r
  }

  /** Habits listed for a profile: its own, not archived, in store order. */
  function ActiveOwnedBy(hs: seq<Habit>, userId: Id): (r: seq<Habit>)
    ensures forall h :: h in r ==> h in hs && !h.archived && h.userId == Some(userId)
    ensures forall h :: h in hs && !h.archived && h.userId == Some(userId) ==> h in r
    ensures |r| <= |hs|
  {
    if hs == [] then []
    else
      var rest := ActiveOwnedBy(hs[1..], userId);
      assert forall h :: h in hs ==> h == hs[0] || h in hs[1..];
      if !hs[0].archived && hs[0].userId == Some(userId) then [hs[0]] + rest else rest
  }

  lemma {:induction false} ActiveOwnedByConcat(a: seq<Habit>, b: seq<Habit>, userId: Id)
    ensures ActiveOwnedBy(a + b, userId) == ActiveOwnedBy(a, userId) + ActiveOwnedBy(b, userId)
  {
    if a == [] {
      assert a + b == b;
    } else {
      var ab := a + b;
      assert ab[0] == a[0] && ab[1..] == a[1..] + b;
      ActiveOwnedByConcat(a[1..], b, userId);
      var x, y := ActiveOwnedBy(a[1..], userId), ActiveOwnedBy(b, userId);
      assert [a[0]] + (x + y) == ([a[0]] + x) + y;
    }
  }

  /** A habit older than every habit of an ordered list can go in front of it. */
  lemma PrependOrdered(h: Habit, hs: seq<Habit>)
    requires HabitsInCreationOrder(hs)
    requires forall x :: x in hs ==> h.createdAt < x.createdAt
    ensures HabitsInCreationOrder([h] + hs)
  {
    var r := [h] + hs;
    forall i, j | 0 <= i < j < |r| ensures r[i].createdAt < r[j].createdAt {
      assert r[j] == hs[j - 1];
      if i > 0 {
        assert r[i] == hs[i - 1];
      }
    }
  }

  /** The filter keeps its input's order, so the listing is ordered by `createdAt` ascending. */
  lemma {:induction false} ActiveOwnedByOrdered(hs: seq<Habit>, userId: Id)
    requires HabitsInCreationOrder(hs)
    ensures HabitsInCreationOrder(ActiveOwnedBy(hs, userId))
  {
    if hs != [] {
      var tail := hs[1..];
      assert HabitsInCreationOrder(tail) by {
        forall i, j | 0 <= i < j < |tail| ensures tail[i].createdAt < tail[j].createdAt {
          assert tail[i] == hs[i + 1] && tail[j] == hs[j + 1];
        }
      }
      ActiveOwnedByOrdered(tail, userId);
      var rest := ActiveOwnedBy(tail, userId);
      forall h | h in rest ensures hs[0].createdAt < h.createdAt {
        var k :| 0 <= k < |tail| && tail[k] == h;
        assert hs[k + 1] == h;
      }
      if !hs[0].archived && hs[0].userId == Some(userId) {
        PrependOrdered(hs[0], rest);
      }
    }
  }
}
