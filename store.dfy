/**
 * Active-profile resolution (src/lib/activeUser.ts) over a mutable store.
 * `EnsureDefault` and `ResolveActive` state on store values what the
 * methods of `Store` do to the store in place.
 */
module Store {
  import opened Common
  import opened Model

  const DefaultUserName := "Default"
  const DefaultUserColor := "#0ea5e9"

  /**
   * ensureDefaultUser: the oldest profile's id; on an empty table, a new
   * profile "Default" is created first.
   */
  function EnsureDefault(db: Db): (r: (Db, Id))
    requires Valid(db)
    ensures Valid(r.0) && |r.0.users| > 0 && r.1 == r.0.users[0].id
    ensures forall u :: u in r.0.users ==> r.0.users[0].createdAt <= u.createdAt
    ensures |db.users| > 0 ==> r.0 == db
    ensures |db.users| == 0 ==>
      && |r.0.users| == 1 && r.0.users[0].name == DefaultUserName && r.0.users[0].color == Some(DefaultUserColor)
      && r.0.habits == db.habits && r.0.checkIns == db.checkIns
  {
    if |db.users| > 0 then (db, db.users[0].id)
    else
      var (db', u) := InsertUser(db, DefaultUserName, Some(DefaultUserColor));
      (db', u.id)
  }

  /** A second ensureDefaultUser creates nothing and returns the same id. */
  lemma EnsureDefaultIdempotent(db: Db)
    requires Valid(db)
    ensures EnsureDefault(EnsureDefault(db).0) == EnsureDefault(db)
  {
  }

  /** The cookie counts only when it is a non-empty string, as `if (cookieId)` tests. */
  predicate CookieNamesUser(db: Db, cookie: Option<string>) {
    cookie.Some? && cookie.value != "" && cookie.value in UserIds(db.users)
  }

  /** getActiveUserId: the cookie's profile when it exists, else ensureDefaultUser. */
  function ResolveActive(db: Db, cookie: Option<string>): (r: (Db, Id))
    requires Valid(db)
    ensures Valid(r.0) && r.1 in UserIds(r.0.users)
    ensures CookieNamesUser(db, cookie) ==> r == (db, cookie.value)
    ensures !CookieNamesUser(db, cookie) ==> r == EnsureDefault(db)
  {
    if CookieNamesUser(db, cookie) then (db, cookie.value) else EnsureDefault(db)
  }

  /** Resolving never removes anything: at most the "Default" profile is added to an empty table. */
  lemma ResolveActiveOnlyAddsDefault(db: Db, cookie: Option<string>)
    requires Valid(db)
    ensures var db' := ResolveActive(db, cookie).0;
      db'.habits == db.habits && db'.checkIns == db.checkIns
      && (|db.users| > 0 ==> db' == db)
      && (|db.users| == 0 ==> |db'.users| == 1)
  {
  }

  class Store {
    var users: seq<User>
    var habits: seq<Habit>
    var checkIns: seq<CheckIn>
    var clock: nat

    function State(): Db
      reads this
    {
      Db(users, habits, checkIns, clock)
    }

    ghost predicate Valid()
      reads this
    {
      Model.Valid(State())
    }

    constructor (initial: Db)
      requires Model.Valid(initial)
      ensures Valid() && State() == initial
    {
      users, habits, checkIns, clock := initial.users, initial.habits, initial.checkIns, initial.clock;
    }

    method Load(db: Db)
      requires Model.Valid(db)
      modifies this
      ensures Valid() && State() == db
    {
      users, habits, checkIns, clock := db.users, db.habits, db.checkIns, db.clock;
    }

    /** `user.create` */
    method CreateUser(name: string, color: Option<string>) returns (u: User)
      requires Valid()
      modifies this
      ensures Valid() && (State(), u) == InsertUser(old(State()), name, color)
    {
      var r := InsertUser(State(), name, color);
      Load(r.0);
      u := r.1;
    }

    /** `habit.createMany` */
    method CreateMany(rows: seq<HabitRow>)
      requires Valid() && OwnersExist(rows, users)
      modifies this
      ensures Valid() && State() == InsertHabits(old(State()), rows)
    {
      Load(InsertHabits(State(), rows));
    }

    /** `habit.create`: one row, returned as created. */
    method CreateHabit(row: HabitRow) returns (h: Habit)
      requires Valid() && OwnersExist([row], users)
      modifies this
      ensures Valid() && State() == InsertHabits(old(State()), [row])
      ensures h == NewHabits([row], old(clock))[0]
    {
      h := NewHabits([row], clock)[0];
      Load(InsertHabits(State(), [row]));
    }

    /** `user.findUnique({ where: { id } })`, reduced to whether the row exists. */
    method UserExists(id: Id) returns (found: bool)
      ensures found <==> id in UserIds(users)
    {
      found := id in UserIds(users);
    }

    method EnsureDefaultUser() returns (id: Id)
      requires Valid()
      modifies this
      ensures Valid() && (State(), id) == EnsureDefault(old(State()))
    {
      if |users| > 0 {
        id := users[0].id;
        return;
      }
      var created := CreateUser(DefaultUserName, Some(DefaultUserColor));
      id := created.id;
    }

    method GetActiveUserId(cookie: Option<string>) returns (id: Id)
      requires Valid()
      modifies this
      ensures Valid() && (State(), id) == ResolveActive(old(State()), cookie)
    {
      if cookie.Some? && cookie.value != "" {
        var found := UserExists(cookie.value);
        if found {
          id := cookie.value;
          return;
        }
      }
      id := EnsureDefaultUser();
    }
  }
}
