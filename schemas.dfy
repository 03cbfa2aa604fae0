/**
 * Request-payload validation (src/lib/schemas.ts), modelled on the parsed
 * JSON value. A body that is not valid JSON reaches the schemas as `null`
 * (the routes' `.catch(() => null)`), so it arrives here as `JNull`.
 *
 * zod's object parsing: a key that is absent from the input is absent from
 * the output (modelled as `None`), unknown keys are dropped, every field is
 * checked and all of their issues are reported, in the order of the schema's
 * fields.
 */
module Schemas {
  import opened Common
  import JsString
  import Pattern

  datatype Json =
    | JNull
    | JBool(b: bool)
    | JNumber(n: real)
    | JString(s: string)
    | JArray(items: seq<Json>)
    | JObject(fields: map<string, Json>)

  datatype IssueCode =
    | InvalidType
    | TooSmall(minimum: nat)
    | TooBig(maximum: nat)
    | InvalidString          // a string that fails a `.regex(...)` check
    | Custom(message: string)

  datatype Issue = Issue(path: seq<string>, code: IssueCode)

  const EmptyUpdateMessage := "Provide at least one field to update."

  /** The value of `key` in an object, `None` when the key is absent. */
  function Field(fields: map<string, Json>, key: string): Option<Json> {
    if key in fields then Some(fields[key]) else None
  }

  /** Issues of one field, reported under its key. */
  function At<T>(key: string, r: Result<T, seq<IssueCode>>): (issues: seq<Issue>)
    requires r.Failure? ==> r.error != []
    ensures r.Success? <==> issues == []
  {
    match r
    case Success(_) => []
    case Failure(codes) => seq(|codes|, i requires 0 <= i < |codes| => Issue([key], codes[i]))
  }

  predicate LengthBetween(t: string, min: nat, max: nat) {
    min <= JsString.JsLength(t) <= max
  }

  /** `z.string().trim().min(min).max(max)`: the checks run on the trimmed string. */
  function TrimmedString(v: Option<Json>, min: nat, max: nat): (r: Result<string, seq<IssueCode>>)
    ensures r.Success? <==> v.Some? && v.value.JString? && LengthBetween(JsString.Trim(v.value.s), min, max)
    ensures r.Success? ==> r.value == JsString.Trim(v.value.s)
    ensures r.Failure? ==> r.error != []
  {
    match v
    case Some(JString(s)) =>
      var t := JsString.Trim(s);
      var n := JsString.JsLength(t);
      var codes := (if n < min then [TooSmall(min)] else []) + (if n > max then [TooBig(max)] else []);
      if codes == [] then Success(t) else Failure(codes)
    case _ => Failure([InvalidType])
  }

  /** The same check on a field that may be left out. */
  function OptionalTrimmedString(v: Option<Json>, min: nat, max: nat): (r: Result<Option<string>, seq<IssueCode>>)
    ensures v.None? ==> r == Success(None)
    ensures v.Some? ==> match TrimmedString(v, min, max)
                        case Success(t) => r == Success(Some(t))
                        case Failure(e) => r == Failure(e)
    ensures r.Failure? ==> r.error != []
  {
    if v.None? then Success(None)
    else match TrimmedString(v, min, max)
      case Success(t) => Success(Some(t))
      case Failure(e) => Failure(e)
  }

  predicate IsHexColor(s: string) {
    Pattern.Matches(Pattern.HexColorPattern, s)
  }

  /** colorHexSchema: an optional string matching `^#[0-9a-fA-F]{6}$`. */
  function HexColor(v: Option<Json>): (r: Result<Option<string>, seq<IssueCode>>)
    ensures v.None? ==> r == Success(None)
    ensures v.Some? ==> (r.Success? <==> v.value.JString? && IsHexColor(v.value.s))
    ensures r.Success? && v.Some? ==> r.value == Some(v.value.s)
    ensures r.Failure? ==> r.error != []
  {
    match v
    case None => Success(None)
    case Some(JString(s)) => if IsHexColor(s) then Success(Some(s)) else Failure([InvalidString])
    case Some(_) => Failure([InvalidType])
  }

  /** The colour check accepts exactly `#` followed by six characters of `[0-9a-fA-F]`. */
  lemma HexColorAcceptsExactly(s: string)
    ensures HexColor(Some(JString(s))).Success? <==>
      |s| == 7 && s[0] == '#' && (forall i :: 1 <= i < 7 ==> Pattern.IsHexDigit(s[i]))
  {
    Pattern.HexColorPatternShape(s);
  }

  function OptionalBool(v: Option<Json>): (r: Result<Option<bool>, seq<IssueCode>>)
    ensures r.Success? <==> v.None? || v.value.JBool?
    ensures r.Success? ==> r.value == if v.None? then None else Some(v.value.b)
    ensures r.Failure? ==> r.error != []
  {
    match v
    case None => Success(None)
    case Some(JBool(b)) => Success(Some(b))
    case Some(_) => Failure([InvalidType])
  }

  function RequiredString(v: Option<Json>): (r: Result<string, seq<IssueCode>>)
    ensures r.Success? <==> v.Some? && v.value.JString?
    ensures r.Success? ==> r.value == v.value.s
    ensures r.Failure? ==> r.error != []
  {
    match v
    case Some(JString(s)) => Success(s)
    case _ => Failure([InvalidType])
  }

  datatype CreateHabitInput = CreateHabitInput(name: string, color: Option<string>)

  /** Name of a habit: trimmed, then 1 to 80 code units. */
  const HabitNameMax: nat := 80

  /** createHabitSchema.safeParse */
  function ParseCreateHabit(j: Json): (r: Result<CreateHabitInput, seq<Issue>>)
    ensures r.Success? <==>
      j.JObject?
      && TrimmedString(Field(j.fields, "name"), 1, HabitNameMax).Success?
      && HexColor(Field(j.fields, "color")).Success?
    ensures r.Success? ==>
      && r.value.name == JsString.Trim(j.fields["name"].s)
      && r.value.color == (if "color" in j.fields then Some(j.fields["color"].s) else None)
    ensures r.Failure? ==> r.error != []
  {
    match j
    case JObject(fields) =>
      var name := TrimmedString(Field(fields, "name"), 1, HabitNameMax);
      var color := HexColor(Field(fields, "color"));
      var issues := At("name", name) + At("color", color);
      if issues == [] then Success(CreateHabitInput(name.value, color.value)) else Failure(issues)
    case _ => Failure([Issue([], InvalidType)])
  }

  /** A name that trims to nothing is rejected, whatever the colour. */
  lemma BlankHabitNameRejected(fields: map<string, Json>, s: string)
    requires Field(fields, "name") == Some(JString(s)) && JsString.AllWhitespace(s)
    ensures ParseCreateHabit(JObject(fields)).Failure?
  {
  }

  /** A missing colour is accepted: a name alone is a complete payload. */
  lemma ColorMayBeAbsent(s: string)
    requires 1 <= JsString.JsLength(JsString.Trim(s)) <= HabitNameMax
    ensures ParseCreateHabit(JObject(map["name" := JString(s)])) ==
      Success(CreateHabitInput(JsString.Trim(s), None))
  {
  }

  datatype UpdateHabitInput = UpdateHabitInput(name: Option<string>, color: Option<string>, archived: Option<bool>)

  /** updateHabitSchema.safeParse, including the at-least-one-field refinement. */
  function ParseUpdateHabit(j: Json): (r: Result<UpdateHabitInput, seq<Issue>>)
    ensures r.Success? <==>
      && j.JObject?
      && OptionalTrimmedString(Field(j.fields, "name"), 1, HabitNameMax).Success?
      && HexColor(Field(j.fields, "color")).Success?
      && OptionalBool(Field(j.fields, "archived")).Success?
      && ("name" in j.fields || "color" in j.fields || "archived" in j.fields)
    ensures r.Success? ==>
      && r.value.name == OptionalTrimmedString(Field(j.fields, "name"), 1, HabitNameMax).value
      && r.value.color == HexColor(Field(j.fields, "color")).value
      && r.value.archived == OptionalBool(Field(j.fields, "archived")).value
    ensures r.Failure? ==> r.error != []
  {
    match j
    case JObject(fields) =>
      var name := OptionalTrimmedString(Field(fields, "name"), 1, HabitNameMax);
      var color := HexColor(Field(fields, "color"));
      var archived := OptionalBool(Field(fields, "archived"));
      var issues := At("name", name) + At("color", color) + At("archived", archived);
      if issues != [] then Failure(issues)
      else if name.value.None? && color.value.None? && archived.value.None? then
        Failure([Issue([], Custom(EmptyUpdateMessage))])
      else Success(UpdateHabitInput(name.value, color.value, archived.value))
    case _ => Failure([Issue([], InvalidType)])
  }

  /** An update that names none of the three fields is rejected with the refinement's message. */
  lemma EmptyUpdateRejected(fields: map<string, Json>)
    requires "name" !in fields && "color" !in fields && "archived" !in fields
    ensures ParseUpdateHabit(JObject(fields)) == Failure([Issue([], Custom(EmptyUpdateMessage))])
  {
  }

  /** A name given in an update is validated exactly as on creation. */
  lemma UpdateNameLikeCreate(fields: map<string, Json>)
    requires "name" in fields
    requires ParseUpdateHabit(JObject(fields)).Success?
    ensures TrimmedString(Some(fields["name"]), 1, HabitNameMax).Success?
    ensures ParseUpdateHabit(JObject(fields)).value.name == Some(JsString.Trim(fields["name"].s))
  {
  }

  datatype ToggleCheckInInput = ToggleCheckInInput(date: string, completed: Option<bool>)

  /** toggleCheckInSchema.safeParse: any string date (its format is checked later), an optional boolean. */
  function ParseToggleCheckIn(j: Json): (r: Result<ToggleCheckInInput, seq<Issue>>)
    ensures r.Success? <==>
      j.JObject? && RequiredString(Field(j.fields, "date")).Success?
      && OptionalBool(Field(j.fields, "completed")).Success?
    ensures r.Success? ==>
      r.value.date == j.fields["date"].s
      && r.value.completed == (if "completed" in j.fields then Some(j.fields["completed"].b) else None)
    ensures r.Failure? ==> r.error != []
  {
    match j
    case JObject(fields) =>
      var date := RequiredString(Field(fields, "date"));
      var completed := OptionalBool(Field(fields, "completed"));
      var issues := At("date", date) + At("completed", completed);
      if issues == [] then Success(ToggleCheckInInput(date.value, completed.value)) else Failure(issues)
    case _ => Failure([Issue([], InvalidType)])
  }
}
