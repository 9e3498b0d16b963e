/** The logic the add-event and edit-event pages share: the form record, its single-field update,
    the two submission guards and the request bodies. */
module EventForm {
  import opened Common
  import opened Text
  import opened Events

  /** `formData`: field name to value. A field whose JavaScript value is `undefined` is absent. */
  type Form = map<string, string>

  /** The names of the form's inputs. */
  const FieldNames: set<string> := {"event", "date", "startTime", "endTime", "location", "requiredItems"}

  const MissingUserMessage := "User details missing. Please log in again."
  const TimeOrderMessage := "End time must be after start time."

  /** The initial `formData`: every input's field, each the empty string. */
  function EmptyForm(): (form: Form)
    ensures form.Keys == FieldNames
    ensures forall k :: k in form ==> form[k] == ""
  {
    map["event" := "", "date" := "", "startTime" := "", "endTime" := "", "location" := "",
        "requiredItems" := ""]
  }

  /** `handleChange`: `{...formData, [name]: value}`. */
  function ChangeField(form: Form, name: string, value: string): (changed: Form)
    ensures changed.Keys == form.Keys + {name}
    ensures changed[name] == value
    ensures forall k :: k in form && k != name ==> changed[k] == form[k]
  {
    form[name := value]
  }

  /** `formData.startTime >= formData.endTime`. Between two strings `>=` is the negation of `<`;
      when either field is absent (`undefined`) the comparison is false. */
  predicate EndNotAfterStart(form: Form): (rejected: bool)
    ensures "startTime" !in form || "endTime" !in form ==> !rejected
    ensures "startTime" in form && "endTime" in form ==>
      (rejected <==> form["endTime"] == form["startTime"] || StrLess(form["endTime"], form["startTime"]))
  {
    if "startTime" in form && "endTime" in form then
      var start, end := form["startTime"], form["endTime"];
      assert !StrLess(start, end) <==> end == start || StrLess(end, start) by {
        StrLessTotal(start, end);
        StrLessIrreflexive(start);
        if StrLess(start, end) {
          StrLessAsymmetric(start, end);
        }
      }
      !StrLess(start, end)
    else
      false
  }

  /** The guards of `handleSubmit`, in order: the message of the first one that fails, if any. */
  function SubmitRejection(form: Form, username: Option<string>, userfamily: Option<string>)
    : (rejection: Option<string>)
    ensures rejection == Some(MissingUserMessage) <==> Falsy(username) || Falsy(userfamily)
    ensures rejection == Some(TimeOrderMessage) <==>
      !Falsy(username) && !Falsy(userfamily) && EndNotAfterStart(form)
    ensures rejection == None <==>
      !Falsy(username) && !Falsy(userfamily) && !EndNotAfterStart(form)
  {
    if Falsy(username) || Falsy(userfamily) then Some(MissingUserMessage)
    else if EndNotAfterStart(form) then Some(TimeOrderMessage)
    else None
  }

  /** A start time equal to the end time is rejected once the user details are present. */
  lemma EqualTimesRejected(form: Form, username: Option<string>, userfamily: Option<string>)
    requires !Falsy(username) && !Falsy(userfamily)
    requires "startTime" in form && "endTime" in form && form["startTime"] == form["endTime"]
    ensures SubmitRejection(form, username, userfamily) == Some(TimeOrderMessage)
  {
    StrLessIrreflexive(form["startTime"]);
  }

  /** For times as a time input writes them, the form passes the time guard exactly when the start
      is earlier in the day than the end. */
  lemma ClockTimesAccepted(form: Form, username: Option<string>, userfamily: Option<string>)
    requires !Falsy(username) && !Falsy(userfamily)
    requires "startTime" in form && "endTime" in form
    requires IsClockTime(form["startTime"]) && IsClockTime(form["endTime"])
    ensures SubmitRejection(form, username, userfamily) == None <==>
      MinuteOfDay(form["startTime"]) < MinuteOfDay(form["endTime"])
  {
    ClockTimeOrder(form["startTime"], form["endTime"]);
  }

  /** A JSON value in a request body. */
  datatype Json = JString(s: string) | JNull

  type Body = map<string, Json>

  /** A string-or-null value as JSON. */
  function NullableJson(v: Option<string>): Json {
    if v.Some? then JString(v.value) else JNull
  }

  /** `{...formData}`: the form's fields as a JSON object, no field added or dropped. */
  function FormBody(form: Form): (body: Body)
    ensures body.Keys == form.Keys
    ensures forall k :: k in body ==> body[k] == JString(form[k])
  {
    map k | k in form :: JString(form[k])
  }

  /** The add request's body: `{...formData, username, userfamily, userrole}`, the identity
      fields overriding any form field of the same name. */
  function NewEventBody(form: Form, username: string, userfamily: string, userrole: Option<string>)
    : (body: Body)
    ensures body.Keys == form.Keys + {"username", "userfamily", "userrole"}
    ensures body["username"] == JString(username) && body["userfamily"] == JString(userfamily)
    ensures body["userrole"] == NullableJson(userrole)
    ensures forall k :: k in form && k !in {"username", "userfamily", "userrole"} ==>
      body[k] == JString(form[k])
  {
    FormBody(form)["username" := JString(username)]["userfamily" := JString(userfamily)]
      ["userrole" := NullableJson(userrole)]
  }

  /** Form fields reach the add request unchanged, and the identity is added. */
  lemma NewEventBodyKeepsForm(form: Form, username: string, userfamily: string, userrole: Option<string>)
    requires form.Keys <= FieldNames
    ensures var body := NewEventBody(form, username, userfamily, userrole);
      && (forall k :: k in form ==> body[k] == JString(form[k]))
      && body.Keys - form.Keys == {"username", "userfamily", "userrole"}
  {
    var body := NewEventBody(form, username, userfamily, userrole);
    assert forall k :: k in form ==> k !in {"username", "userfamily", "userrole"};
    assert body.Keys - form.Keys == {"username", "userfamily", "userrole"};
  }

  /** The update request's body carries the form's fields and no identity field. */
  lemma UpdateBodyOmitsIdentity(form: Form)
    requires form.Keys <= FieldNames
    ensures "username" !in FormBody(form) && "userfamily" !in FormBody(form) && "userrole" !in FormBody(form)
  {
  }

  /** The edit form after loading an event: its six fields taken from the event, the date cut to
      the part of its ISO rendering before 'T'. */
  function LoadedForm(ev: Event, isoDate: string): (form: Form)
    ensures form.Keys == FieldNames
    ensures form["event"] == ev.title && form["startTime"] == ev.startTime && form["endTime"] == ev.endTime
    ensures form["location"] == ev.location && form["requiredItems"] == ev.requiredItems
    ensures form["date"] == BeforeT(isoDate)
  {
    map["event" := ev.title, "date" := BeforeT(isoDate), "startTime" := ev.startTime,
        "endTime" := ev.endTime, "location" := ev.location, "requiredItems" := ev.requiredItems]
  }
}
