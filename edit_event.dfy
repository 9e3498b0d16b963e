/** The edit-event page: loading the event into the form, its form state and the update handler. */
module EditEvent {
  import opened Common
  import opened Events
  import opened EventForm

  const LoadFailedMessage := "Failed to load event details."
  const UpdateFallback := "Failed to update event. Please try again."

  /** The update request: the event id from the route and the body. */
  datatype UpdateRequest = UpdateRequest(eventId: string, body: Body)

  /** The state of the `EditEvent` component for the event `eventId`. */
  class EditEventPage {
    const eventId: string
    var error: string
    var isSubmitting: bool
    var loading: bool
    var formData: Form

    /** The form holds the fields of its inputs. */
    ghost predicate Valid()
      reads this
    {
      formData.Keys == FieldNames
    }

    constructor (eventId: string)
      ensures Valid()
      ensures this.eventId == eventId
      ensures error == "" && !isSubmitting && loading && formData == EmptyForm()
    {
      this.eventId := eventId;
      error := "";
      isSubmitting := false;
      loading := true;
      formData := EmptyForm();
    }

    /** The fetch effect. `reply` is the fetched event; `isoDate` is `new Date(event.date).toISOString()`,
        absent when the date is invalid and the conversion throws. Without a token nothing changes
        (the page stays on its loading text); otherwise loading ends, with the form copied from the
        event or with the fixed load error. */
    method LoadEvent(token: Option<string>, reply: Reply<Event>, isoDate: Option<string>)
      requires Valid()
      modifies this`error, this`loading, this`formData
      ensures Valid()
      ensures Falsy(token) ==>
        error == old(error) && loading == old(loading) && formData == old(formData)
      ensures !Falsy(token) ==> !loading
      ensures !Falsy(token) && reply.Success? && isoDate.Some? ==>
        formData == LoadedForm(reply.data, isoDate.value) && error == old(error)
      ensures !Falsy(token) && !(reply.Success? && isoDate.Some?) ==>
        formData == old(formData) && error == LoadFailedMessage
    {
      if Falsy(token) {
        return;
      }
      if reply.Success? && isoDate.Some? {
        formData := LoadedForm(reply.data, isoDate.value);
      } else {
        error := LoadFailedMessage;
      }
      loading := false;
    }

    /** `handleChange` for the input named `name`. */
    method HandleChange(name: string, value: string)
      requires Valid() && name in FieldNames
      modifies this`formData
      ensures Valid()
      ensures formData == ChangeField(old(formData), name, value)
    {
      formData := ChangeField(formData, name, value);
    }

    /** `handleSubmit`: the same guards as adding, in the same order; the username and family are
        read for the guard only, and the update body is the form alone. */
    method HandleSubmit(username: Option<string>, userfamily: Option<string>, reply: Reply<()>)
      returns (request: Option<UpdateRequest>, navigatedHome: bool)
      requires Valid()
      modifies this`error, this`isSubmitting
      ensures Valid() && formData == old(formData) && loading == old(loading)
      ensures SubmitRejection(formData, username, userfamily).Some? ==>
        && request == None && !navigatedHome && !isSubmitting
        && error == SubmitRejection(formData, username, userfamily).value
      ensures SubmitRejection(formData, username, userfamily) == None ==>
        request == Some(UpdateRequest(eventId, FormBody(formData)))
      ensures SubmitRejection(formData, username, userfamily) == None && reply.Success? ==>
        navigatedHome && isSubmitting && error == ""
      ensures SubmitRejection(formData, username, userfamily) == None && reply.Failure? ==>
        !navigatedHome && !isSubmitting && error == ShownError(reply.serverMessage, UpdateFallback)
    {
      request, navigatedHome := None, false;
      error := "";
      isSubmitting := true;

      if Falsy(username) || Falsy(userfamily) {
        error := MissingUserMessage;
        isSubmitting := false;
        return;
      }

      if EndNotAfterStart(formData) {
        error := TimeOrderMessage;
        isSubmitting := false;
        return;
      }

      request := Some(UpdateRequest(eventId, FormBody(formData)));
      match reply {
        case Success(_) =>
          navigatedHome := true;
        case Failure(message) =>
          error := ShownError(message, UpdateFallback);
          isSubmitting := false;
      }
    }
  }
}
