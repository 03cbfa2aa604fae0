/**
 * The set-active endpoint (src/app/api/users/active/route.ts): after
 * ensureDefaultUser, a payload naming an existing profile sets the
 * `activeUserId` cookie to it for a year.
 */
module ActiveApi {
  import opened Common
  import opened Model
  import opened Store
  import Schemas
  import JsString

  const ActiveUserCookie := "activeUserId"

  /** One year, in seconds. */
  const CookieMaxAge: nat := 60 * 60 * 24 * 365

  datatype SetCookie = SetCookie(name: string, value: string, maxAge: nat)

  datatype Response =
    | Invalid(issues: seq<Schemas.Issue>)
    | NotFound
    | Activated(cookie: SetCookie)
  {
    function Status(): int {
      match this
      case Invalid(_) => 400
      case NotFound => 404
      case Activated(_) => 200
    }

    function Error(): Option<string> {
      match this
      case Invalid(_) => Some("Invalid payload")
      case NotFound => Some("User not found")
      case Activated(_) => None
    }

    function CookieSet(): Option<SetCookie> {
      if Activated? then Some(cookie) else None
    }
  }

  /** bodySchema.safeParse: `userId` must be a string of at least one code unit; it is not trimmed. */
  function ParseSetActive(j: Schemas.Json): (r: Result<Id, seq<Schemas.Issue>>)
    ensures r.Success? <==>
      j.JObject? && "userId" in j.fields && j.fields["userId"].JString?
      && JsString.JsLength(j.fields["userId"].s) >= 1
    ensures r.Success? ==> r.value == j.fields["userId"].s && r.value != ""
    ensures r.Failure? ==> r.error != []
  {
    match j
    case JObject(fields) =>
      (match Schemas.Field(fields, "userId")
       case Some(JString(s)) =>
         if JsString.JsLength(s) >= 1 then Success(s)
         else Failure([Schemas.Issue(["userId"], Schemas.TooSmall(1))])
       case _ => Failure([Schemas.Issue(["userId"], Schemas.InvalidType)]))
    case _ => Failure([Schemas.Issue([], Schemas.InvalidType)])
  }

  /** POST: ensureDefaultUser, validate, check the profile exists, set the cookie. */
  function PostSpec(db: Db, body: Schemas.Json): (r: (Db, Response))
    requires Valid(db)
    ensures Valid(r.0)
  {
    var (db', _) := EnsureDefault(db);
    match ParseSetActive(body)
    case Failure(issues) => (db', Invalid(issues))
    case Success(id) =>
      if id in UserIds(db'.users) then (db', Activated(SetCookie(ActiveUserCookie, id, CookieMaxAge)))
      else (db', NotFound)
  }

  /**
   * The outcome of every call: at least one profile exists afterwards and
   * the store is the one ensureDefaultUser leaves; the cookie is set exactly
   * when the payload names an existing profile, to exactly that id, for
   * 31536000 seconds; otherwise the answer is 400 for a bad payload or 404.
   */
  lemma PostOutcome(db: Db, body: Schemas.Json)
    requires Valid(db)
    ensures var r := PostSpec(db, body);
      var db' := EnsureDefault(db).0;
      var p := ParseSetActive(body);
      && r.0 == db' && |r.0.users| > 0
      && (p.Failure? ==> r.1.Status() == 400 && r.1.CookieSet() == None && r.1.Error() == Some("Invalid payload"))
      && (p.Success? && p.value !in UserIds(db'.users) ==>
            r.1.Status() == 404 && r.1.CookieSet() == None && r.1.Error() == Some("User not found"))
      && (p.Success? && p.value in UserIds(db'.users) ==>
            r.1.Status() == 200 && r.1.Error() == None
            && r.1.CookieSet() == Some(SetCookie(ActiveUserCookie, p.value, CookieMaxAge)))
  {
  }

  /** Whatever the payload, a cookie is only ever set to an existing profile, and lasts a year. */
  lemma CookieNamesExistingUser(db: Db, body: Schemas.Json)
    requires Valid(db)
    ensures var r := PostSpec(db, body);
      r.1.CookieSet().Some? ==>
        && r.1.CookieSet().value.value in UserIds(r.0.users)
        && r.1.CookieSet().value.name == "activeUserId"
        && r.1.CookieSet().value.maxAge == 31536000
  {
  }

  /** The cookie it sets makes the next resolution pick exactly that profile. */
  lemma CookieIsResolved(db: Db, body: Schemas.Json)
    requires Valid(db) && PostSpec(db, body).1.Activated?
    ensures var r := PostSpec(db, body);
      ResolveActive(r.0, Some(r.1.cookie.value)) == (r.0, r.1.cookie.value)
  {
  }

  method Post(store: Store, body: Schemas.Json) returns (res: Response)
    requires store.Valid()
    modifies store
    ensures store.Valid() && (store.State(), res) == PostSpec(old(store.State()), body)
  {
    var _ := store.EnsureDefaultUser();
    var parsed := ParseSetActive(body);
    if parsed.Failure? {
      res := Invalid(parsed.error);
      return;
    }
    var found := store.UserExists(parsed.value);
    if !found {
      res := NotFound;
      return;
    }
    res := Activated(SetCookie(ActiveUserCookie, parsed.value, CookieMaxAge));
  }
}
