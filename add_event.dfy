/** The add-event page: its form state and the submission handler. */
module AddEvent {
  import opened Common
  import opened EventForm

  const AddFallback := "Failed to add event. Please try again."

  /** The state of the `AddEvent` component. */
  class AddEventPage {
    var error: string
    var isSubmitting: bool
    var formData: Form

    /** The form always holds exactly the fields of its inputs. */
    ghost predicate Valid()
      reads this
    {
      formData.Keys == FieldNames
    }

    constructor ()
      ensures Valid()
      ensures error == "" && !isSubmitting && formData == EmptyForm()
    {
      error := "";
      isSubmitting := false;
      formData := EmptyForm();
    }

    /** `handleChange` for the input named `name`. */
    method HandleChange(name: string, value: string)
      requires Valid() && name in FieldNames
      modifies this`formData
      ensures Valid()
      ensures formData == ChangeField(old(formData), name, value)
    {
      formData := ChangeField(formData, name, value);
    }

    /** `handleSubmit`: clears the error and marks the form as submitting; a failed guard shows its
        message and ends the submission without a request; otherwise the add request is sent, and
        its reply either leaves the page or shows the server's message or the fallback. */
    method HandleSubmit(username: Option<string>, userfamily: Option<string>, userrole: Option<string>,
                        reply: Reply<()>)
      returns (request: Option<Body>, navigatedHome: bool)
      requires Valid()
      modifies this`error, this`isSubmitting
      ensures Valid() && formData == old(formData)
      ensures SubmitRejection(formData, username, userfamily).Some? ==>
        && request == None && !navigatedHome && !isSubmitting
        && error == SubmitRejection(formData, username, userfamily).value
      ensures SubmitRejection(formData, username, userfamily) == None ==>
        request == Some(NewEventBody(formData, username.value, userfamily.value, userrole))
      ensures SubmitRejection(formData, username, userfamily) == None && reply.Success? ==>
        navigatedHome && isSubmitting && error == ""
      ensures SubmitRejection(formData, username, userfamily) == None && reply.Failure? ==>
        !navigatedHome && !isSubmitting && error == ShownError(reply.serverMessage, AddFallback)
    {
      request, navigatedHome := None, false;
      error := "";
      isSubmitting := true;

      if Falsy(username) || Falsy(userfamily) {
        error := MissingUserMessage;
        isSubmitting := false;
        return;
      }

      if EndNotAfterStart(formData) {
        error := TimeOrderMessage;
        isSubmitting := false;
        return;
      }

      request := Some(NewEventBody(formData, username.value, userfamily.value, userrole));
      match reply {
        case Success(_) =>
          navigatedHome := true;
        case Failure(message) =>
          error := ShownError(message, AddFallback);
          isSubmitting := false;
      }
    }
  }
}
