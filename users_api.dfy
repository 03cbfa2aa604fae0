/**
 * The profiles endpoint (src/app/api/users/route.ts): GET lists every
 * profile with the resolved active id; POST creates a profile and gives it a
 * copy of the active profile's unarchived habits.
 */
module UsersApi {
  import opened Common
  import opened Model
  import opened Store
  import Schemas
  import JsString

  /** A profile name: trimmed, then 1 to 40 code units. */
  const ProfileNameMax: nat := 40

  datatype CreateUserInput = CreateUserInput(name: string, color: Option<string>)

  /** createUserSchema.safeParse */
  function ParseCreateUser(j: Schemas.Json): (r: Result<CreateUserInput, seq<Schemas.Issue>>)
    ensures r.Success? <==>
      j.JObject?
      && Schemas.TrimmedString(Schemas.Field(j.fields, "name"), 1, ProfileNameMax).Success?
      && Schemas.HexColor(Schemas.Field(j.fields, "color")).Success?
    ensures r.Success? ==>
      && r.value.name == JsString.Trim(j.fields["name"].s)
      && 1 <= JsString.JsLength(r.value.name) <= ProfileNameMax
      && r.value.color == (if "color" in j.fields then Some(j.fields["color"].s) else None)
    ensures r.Failure? ==> r.error != []
  {
    match j
    case JObject(fields) =>
      var name := Schemas.TrimmedString(Schemas.Field(fields, "name"), 1, ProfileNameMax);
      var color := Schemas.HexColor(Schemas.Field(fields, "color"));
      var issues := Schemas.At("name", name) + Schemas.At("color", color);
      if issues == [] then Success(CreateUserInput(name.value, color.value)) else Failure(issues)
    case _ => Failure([Schemas.Issue([], Schemas.InvalidType)])
  }

  /** A valid profile payload is also a valid habit payload with the same name and colour. */
  lemma ProfileNameStricterThanHabitName(j: Schemas.Json)
    requires ParseCreateUser(j).Success?
    ensures Schemas.ParseCreateHabit(j).Success?
    ensures Schemas.ParseCreateHabit(j).value.name == ParseCreateUser(j).value.name
    ensures Schemas.ParseCreateHabit(j).value.color == ParseCreateUser(j).value.color
  {
  }

  datatype Listing = Listing(activeUserId: Id, users: seq<User>)

  /** GET: resolve the active profile, then list every profile. */
  function GetSpec(db: Db, cookie: Option<string>): (r: (Db, Listing))
    requires Valid(db)
  {
    var (db', id) := ResolveActive(db, cookie);
    (db', Listing(id, db'.users))
  }

  /** The listing holds every profile, oldest first, and the active id is one of them. */
  lemma GetListsAllUsers(db: Db, cookie: Option<string>)
    requires Valid(db)
    ensures var r := GetSpec(db, cookie);
      && Valid(r.0) && r.1.users == r.0.users
      && UsersInCreationOrder(r.1.users)
      && r.1.activeUserId in UserIds(r.1.users)
      && (|db.users| > 0 ==> r.0 == db)
  {
  }

  method Get(store: Store, cookie: Option<string>) returns (res: Listing)
    requires store.Valid()
    modifies store
    ensures store.Valid() && (store.State(), res) == GetSpec(old(store.State()), cookie)
  {
    var id := store.GetActiveUserId(cookie);
    res := Listing(id, store.users);
  }

  datatype PostResponse =
    | Invalid(issues: seq<Schemas.Issue>)
    | Created(user: User)
  {
    function Status(): int {
      if Invalid? then 400 else 201
    }
  }

  /** The rows `createMany` receives: each source habit's name and colour, for the new owner. */
  function CopyRows(source: seq<Habit>, owner: Id): (rows: seq<HabitRow>)
    ensures |rows| == |source|
    ensures forall i :: 0 <= i < |source| ==>
      rows[i] == HabitRow(Some(owner), source[i].name, source[i].color)
  {
    seq(|source|, i requires 0 <= i < |source| => HabitRow(Some(owner), source[i].name, source[i].color))
  }

  /** The part of a habit that is copied. */
  function Templates(hs: seq<Habit>): (t: seq<(string, Option<string>)>)
    ensures |t| == |hs| && forall i :: 0 <= i < |hs| ==> t[i] == (hs[i].name, hs[i].color)
  {
    seq(|hs|, i requires 0 <= i < |hs| => (hs[i].name, hs[i].color))
  }

  /** The profile created from a valid payload, with copies of the source profile's unarchived habits. */
  function CreateWithCopies(db: Db, sourceId: Id, input: CreateUserInput): (r: (Db, User))
    requires Valid(db)
    ensures Valid(r.0)
  {
    var (db', user) := InsertUser(db, input.name, input.color);
    var source := ActiveOwnedBy(db'.habits, sourceId);
    if |source| > 0 then (InsertHabits(db', CopyRows(source, user.id)), user) else (db', user)
  }

  /**
   * POST: ensureDefaultUser, resolve the source profile, validate, create
   * the profile, then copy the source's unarchived habits when there are any.
   */
  function PostSpec(db: Db, cookie: Option<string>, body: Schemas.Json): (r: (Db, PostResponse))
    requires Valid(db)
    ensures Valid(r.0)
  {
    var (db1, _) := EnsureDefault(db);
    var (db2, sourceId) := ResolveActive(db1, cookie);
    match ParseCreateUser(body)
    case Failure(issues) => (db2, Invalid(issues))
    case Success(input) =>
      var (db3, user) := CreateWithCopies(db2, sourceId, input);
      (db3, Created(user))
  }

  /** ensureDefaultUser makes the table non-empty, so resolving afterwards changes nothing. */
  lemma ResolveAfterDefault(db: Db, cookie: Option<string>)
    requires Valid(db)
    ensures ResolveActive(EnsureDefault(db).0, cookie).0 == EnsureDefault(db).0
  {
  }

  /**
   * An invalid payload gets 400. The only change it leaves behind is the
   * "Default" profile that ensureDefaultUser adds to an empty table.
   */
  lemma PostRejectsInvalid(db: Db, cookie: Option<string>, body: Schemas.Json)
    requires Valid(db) && ParseCreateUser(body).Failure?
    ensures var r := PostSpec(db, cookie, body);
      && r.1.Status() == 400
      && r.0 == EnsureDefault(db).0
      && r.0.habits == db.habits && r.0.checkIns == db.checkIns
      && (|db.users| > 0 ==> r.0 == db)
      && (|db.users| == 0 ==> |r.0.users| == 1 && r.0.users[0].name == DefaultUserName)
  {
  }

  /** A habit list owned by `id` and unarchived throughout passes the filter whole. */
  lemma {:induction false} ActiveOwnedByAll(hs: seq<Habit>, id: Id)
    requires forall h :: h in hs ==> h.userId == Some(id) && !h.archived
    ensures ActiveOwnedBy(hs, id) == hs
  {
    if hs != [] {
      assert forall h :: h in hs[1..] ==> h in hs;
      ActiveOwnedByAll(hs[1..], id);
      assert hs == [hs[0]] + hs[1..];
    }
  }

  /** A list with no habit of `id` filters to nothing. */
  lemma ActiveOwnedByNone(hs: seq<Habit>, id: Id)
    requires forall h :: h in hs ==> h.userId != Some(id)
    ensures ActiveOwnedBy(hs, id) == []
  {
    if ActiveOwnedBy(hs, id) != [] {
      assert ActiveOwnedBy(hs, id)[0] in ActiveOwnedBy(hs, id);
    }
  }

  /** Creating a profile adds exactly one profile, with a fresh id and the given name and colour. */
  lemma CreateWithCopiesProfile(db: Db, sourceId: Id, input: CreateUserInput)
    requires Valid(db) && sourceId in UserIds(db.users)
    ensures var r := CreateWithCopies(db, sourceId, input);
      && r.0.users == db.users + [r.1]
      && r.1.id !in UserIds(db.users) && r.1.id != sourceId
      && r.1.name == input.name && r.1.color == input.color
  {
    CreateWithCopiesShape(db, sourceId, input);
  }

  /**
   * The new profile's unarchived habits carry, in order, the names and
   * colours of the source profile's unarchived habits; archived ones are not
   * copied, and no existing habit changes.
   */
  lemma CreateWithCopiesHabits(db: Db, sourceId: Id, input: CreateUserInput)
    requires Valid(db) && sourceId in UserIds(db.users)
    ensures var r := CreateWithCopies(db, sourceId, input);
      var source := ActiveOwnedBy(db.habits, sourceId);
      && |r.0.habits| == |db.habits| + |source|
      && r.0.habits[..|db.habits|] == db.habits
      && Templates(ActiveOwnedBy(r.0.habits, r.1.id)) == Templates(source)
      && ActiveOwnedBy(r.0.habits, sourceId) == source
  {
    var user := InsertUser(db, input.name, input.color).1;
    var clock := InsertUser(db, input.name, input.color).0.clock;
    CreateWithCopiesShape(db, sourceId, input);
    NoHabitOfFreshUser(db, user.id);
    AppendCopies(db.habits, sourceId, user.id, clock);
  }

  /** Appending the copies for a new owner to habits none of which it owns. */
  lemma AppendCopies(hs: seq<Habit>, sourceId: Id, owner: Id, clock: nat)
    requires owner != sourceId && forall h :: h in hs ==> h.userId != Some(owner)
    ensures var source := ActiveOwnedBy(hs, sourceId);
      var all := hs + NewHabits(CopyRows(source, owner), clock);
      && |all| == |hs| + |source| && all[..|hs|] == hs
      && Templates(ActiveOwnedBy(all, owner)) == Templates(source)
      && ActiveOwnedBy(all, sourceId) == source
  {
    var source := ActiveOwnedBy(hs, sourceId);
    var added := NewHabits(CopyRows(source, owner), clock);
    CopiesForOwner(hs, source, owner, sourceId, clock);
    CopiesNotForSource(hs, source, owner, sourceId, clock);
    assert (hs + added)[..|hs|] == hs;
  }

  lemma CopiesForOwner(hs: seq<Habit>, source: seq<Habit>, owner: Id, sourceId: Id, clock: nat)
    requires owner != sourceId && forall h :: h in hs ==> h.userId != Some(owner)
    ensures Templates(ActiveOwnedBy(hs + NewHabits(CopyRows(source, owner), clock), owner)) == Templates(source)
  {
    var added := NewHabits(CopyRows(source, owner), clock);
    ActiveOwnedByNone(hs, owner);
    CopiesSpec(source, owner, sourceId, clock);
    ActiveOwnedByConcat(hs, added, owner);
    assert [] + added == added;
  }

  lemma CopiesNotForSource(hs: seq<Habit>, source: seq<Habit>, owner: Id, sourceId: Id, clock: nat)
    requires owner != sourceId
    ensures ActiveOwnedBy(hs + NewHabits(CopyRows(source, owner), clock), sourceId) == ActiveOwnedBy(hs, sourceId)
  {
    var added := NewHabits(CopyRows(source, owner), clock);
    CopiesSpec(source, owner, sourceId, clock);
    ActiveOwnedByConcat(hs, added, sourceId);
    assert ActiveOwnedBy(hs, sourceId) + [] == ActiveOwnedBy(hs, sourceId);
  }

  /** The profile is inserted first; the copies, if any, are appended after the existing habits. */
  lemma CreateWithCopiesShape(db: Db, sourceId: Id, input: CreateUserInput)
    requires Valid(db)
    ensures var (db3, user) := InsertUser(db, input.name, input.color);
      var added := NewHabits(CopyRows(ActiveOwnedBy(db.habits, sourceId), user.id), db3.clock);
      var r := CreateWithCopies(db, sourceId, input);
      r.1 == user && r.0.users == db3.users && r.0.habits == db.habits + added
  {
    var (db3, user) := InsertUser(db, input.name, input.color);
    if ActiveOwnedBy(db3.habits, sourceId) == [] {
      assert db.habits + [] == db.habits;
    }
  }

  /** No habit belongs to an id that is not a profile. */
  lemma NoHabitOfFreshUser(db: Db, id: Id)
    requires Valid(db) && id !in UserIds(db.users)
    ensures forall h :: h in db.habits ==> h.userId != Some(id)
  {
    forall h | h in db.habits ensures h.userId != Some(id) {
      var k :| 0 <= k < |db.habits| && db.habits[k] == h;
    }
  }

  /** The inserted copies all belong to the new owner and carry the source's names and colours. */
  lemma CopiesSpec(source: seq<Habit>, owner: Id, other: Id, clock: nat)
    requires owner != other
    ensures var added := NewHabits(CopyRows(source, owner), clock);
      && ActiveOwnedBy(added, owner) == added
      && ActiveOwnedBy(added, other) == []
      && Templates(added) == Templates(source)
  {
    var added := NewHabits(CopyRows(source, owner), clock);
    assert forall h :: h in added ==> h.userId == Some(owner) && !h.archived;
    ActiveOwnedByAll(added, owner);
    ActiveOwnedByNone(added, other);
  }

  /** A valid payload gets 201; the profile is created after ensureDefaultUser, copying the resolved profile. */
  lemma PostCreatesProfile(db: Db, cookie: Option<string>, body: Schemas.Json)
    requires Valid(db) && ParseCreateUser(body).Success?
    ensures var r := PostSpec(db, cookie, body);
      var db1 := EnsureDefault(db).0;
      var sourceId := ResolveActive(db1, cookie).1;
      && r.1.Status() == 201 && r.1.Created?
      && sourceId in UserIds(db1.users)
      && (r.0, r.1.user) == CreateWithCopies(db1, sourceId, ParseCreateUser(body).value)
  {
    ResolveAfterDefault(db, cookie);
  }

  /** `user.create`, then `habit.createMany` of the copies when there are any. */
  method CreateProfile(store: Store, sourceId: Id, input: CreateUserInput) returns (user: User)
    requires store.Valid()
    modifies store
    ensures store.Valid() && (store.State(), user) == CreateWithCopies(old(store.State()), sourceId, input)
  {
    user := store.CreateUser(input.name, input.color);
    var source := ActiveOwnedBy(store.habits, sourceId);
    if |source| > 0 {
      store.CreateMany(CopyRows(source, user.id));
    }
  }

  method Post(store: Store, cookie: Option<string>, body: Schemas.Json) returns (res: PostResponse)
    requires store.Valid()
    modifies store
    ensures store.Valid() && (store.State(), res) == PostSpec(old(store.State()), cookie, body)
  {
    var _ := store.EnsureDefaultUser();
    var sourceId := store.GetActiveUserId(cookie);
    var parsed := ParseCreateUser(body);
    if parsed.Failure? {
      res := Invalid(parsed.error);
      return;
    }
    var user := CreateProfile(store, sourceId, parsed.value);
    res := Created(user);
  }
}
