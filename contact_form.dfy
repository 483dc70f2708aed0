/** The browser side of the contact form: the `ContactForm` component's
    state and event handlers. The request itself is abstracted to its
    outcome; rendering is not modelled. */
module ContactFormComponent {
  import opened Wrappers
  import opened JsText
  import ContactApi

  /** The four text inputs (`ContactFormData` as the form holds it). */
  datatype FormData = FormData(name: string, email: string, phone: string, message: string)

  /** `FormErrors`: one optional message per validated field. */
  datatype FormErrors = FormErrors(name: Option<string>, email: Option<string>, message: Option<string>)

  datatype FormStatus = Idle | Submitting | Success | Error

  /** The `name` attribute of the input an edit comes from. */
  datatype Field = NameInput | EmailInput | PhoneInput | MessageInput

  /** How the request ended: the parsed reply's `success` and `message`, or
      an exception from `fetch` or `response.json()`. */
  datatype FetchOutcome = Answered(success: bool, message: Option<string>) | Threw

  const EmptyForm := FormData("", "", "", "")
  const NoErrors := FormErrors(None, None, None)

  const NameMissing := "Bitte geben Sie Ihren Namen ein"
  const EmailMissing := "Bitte geben Sie Ihre E-Mail-Adresse ein"
  const EmailMalformed := "Bitte geben Sie eine gültige E-Mail-Adresse ein"
  const MessageMissing := "Bitte geben Sie eine Nachricht ein"
  const DefaultError := "Ein Fehler ist aufgetreten"
  const ConnectionError := "Verbindungsfehler. Bitte versuchen Sie es später erneut."

  /** The errors `validateForm` computes for `fd` (lines 24-43). */
  function ClientErrors(fd: FormData): (e: FormErrors)
    ensures e.name.Some? <==> AllWs(fd.name)
    ensures e.email.Some? <==> AllWs(fd.email) || !MatchesEmailPattern(fd.email)
    ensures e.message.Some? <==> AllWs(fd.message)
  {
    var afterName := if Trim(fd.name) == [] then NoErrors.(name := Some(NameMissing)) else NoErrors;
    var afterEmail :=
      if Trim(fd.email) == [] then afterName.(email := Some(EmailMissing))
      else if !MatchesEmailPattern(fd.email) then afterName.(email := Some(EmailMalformed))
      else afterName;
    if Trim(fd.message) == [] then afterEmail.(message := Some(MessageMissing)) else afterEmail
  }

  /** `validateForm` returns true exactly when the name and the message are
      not blank and the email is well shaped. */
  lemma {:induction false} ClientAcceptsIff(fd: FormData)
    ensures ClientErrors(fd) == NoErrors <==>
      !AllWs(fd.name) && IsEmailShaped(fd.email) && !AllWs(fd.message)
  {
    EmailPatternIff(fd.email);
    if IsEmailShaped(fd.email) {
      assert fd.email != [] && !IsWs(fd.email[0]);
    }
  }

  /** The phone input is never validated. */
  lemma PhoneNeverValidated(fd: FormData, phone: string)
    ensures ClientErrors(fd.(phone := phone)) == ClientErrors(fd)
  {
  }

  /** The keys of an error record, as `Object.keys` would list them. */
  function ErrorKeys(e: FormErrors): (keys: set<string>)
    ensures keys <= {"name", "email", "message"}
    ensures "name" in keys <==> e.name.Some?
    ensures "email" in keys <==> e.email.Some?
    ensures "message" in keys <==> e.message.Some?
  {
    (if e.name.Some? then {"name"} else {})
      + (if e.email.Some? then {"email"} else {})
      + (if e.message.Some? then {"message"} else {})
  }

  /** The body the server parses from `JSON.stringify(formData)`. */
  function RequestBody(fd: FormData): ContactApi.Json {
    ContactApi.JObj(map[
      "name" := ContactApi.JStr(fd.name),
      "email" := ContactApi.JStr(fd.email),
      "phone" := ContactApi.JStr(fd.phone),
      "message" := ContactApi.JStr(fd.message)])
  }

  /** Field by field, the client and the server's field checks reach the
      same verdict on the form's strings. */
  lemma SameVerdictPerField(fd: FormData)
    ensures var client := ErrorKeys(ClientErrors(fd));
      var server := ContactApi.FieldErrors(
        Some(ContactApi.JStr(fd.name)), Some(ContactApi.JStr(fd.email)), Some(ContactApi.JStr(fd.message))).Keys;
      && server <= {"name", "email", "message"}
      && ("name" in client <==> "name" in server)
      && ("email" in client <==> "email" in server)
      && ("message" in client <==> "message" in server)
  {
    ContactApi.StringFieldErrors(fd.name, fd.email, fd.message);
  }

  lemma SameFieldKeys(a: set<string>, b: set<string>)
    requires a <= {"name", "email", "message"} && b <= {"name", "email", "message"}
    requires "name" in a <==> "name" in b
    requires "email" in a <==> "email" in b
    requires "message" in a <==> "message" in b
    ensures a == b
  {
  }

  /** The client and the server flag the same fields for the same text,
      whatever the phone input holds. */
  lemma {:induction false} ClientServerSameErrorKeys(fd: FormData)
    ensures ContactApi.ValidateFormData(RequestBody(fd)).Returns?
    ensures ErrorKeys(ClientErrors(fd)) == ContactApi.ValidateFormData(RequestBody(fd)).value.errors.Keys
  {
    var body := RequestBody(fd);
    assert ContactApi.Prop(body, "name") == Some(ContactApi.JStr(fd.name));
    assert ContactApi.Prop(body, "email") == Some(ContactApi.JStr(fd.email));
    assert ContactApi.Prop(body, "phone") == Some(ContactApi.JStr(fd.phone));
    assert ContactApi.Prop(body, "message") == Some(ContactApi.JStr(fd.message));
    assert ContactApi.NormalisePhone(ContactApi.Prop(body, "phone")).Returns?;
    var server := ContactApi.FieldErrors(
      Some(ContactApi.JStr(fd.name)), Some(ContactApi.JStr(fd.email)), Some(ContactApi.JStr(fd.message)));
    assert ContactApi.ValidateFormData(body).value.errors == server;
    SameVerdictPerField(fd);
    SameFieldKeys(ErrorKeys(ClientErrors(fd)), server.Keys);
  }

  /** What the form accepts, the server accepts too, and it passes on the
      trimmed fields; an empty phone input becomes "no phone". */
  lemma {:induction false} ClientAcceptedIsServerAccepted(fd: FormData)
    requires ClientErrors(fd) == NoErrors
    ensures ContactApi.ValidateFormData(RequestBody(fd)) ==
      ContactApi.Returns(ContactApi.Validation(true, map[], Some(Normalised(fd))))
  {
    var body := RequestBody(fd);
    assert ContactApi.Prop(body, "name") == Some(ContactApi.JStr(fd.name));
    assert ContactApi.Prop(body, "email") == Some(ContactApi.JStr(fd.email));
    assert ContactApi.Prop(body, "phone") == Some(ContactApi.JStr(fd.phone));
    assert ContactApi.Prop(body, "message") == Some(ContactApi.JStr(fd.message));
    AcceptedBody(body, fd);
  }

  /** The record the server is expected to build from the form's inputs. */
  function Normalised(fd: FormData): ContactApi.ContactFormData {
    ContactApi.ContactFormData(Trim(fd.name), fd.email,
      if fd.phone == "" then None else Some(Trim(fd.phone)), Trim(fd.message))
  }

  lemma AcceptedBody(body: ContactApi.Json, fd: FormData)
    requires ClientErrors(fd) == NoErrors
    requires body.JObj?
    requires ContactApi.Prop(body, "name") == Some(ContactApi.JStr(fd.name))
    requires ContactApi.Prop(body, "email") == Some(ContactApi.JStr(fd.email))
    requires ContactApi.Prop(body, "phone") == Some(ContactApi.JStr(fd.phone))
    requires ContactApi.Prop(body, "message") == Some(ContactApi.JStr(fd.message))
    ensures ContactApi.ValidateFormData(body) ==
      ContactApi.Returns(ContactApi.Validation(true, map[], Some(Normalised(fd))))
  {
    ContactApi.AcceptedStringBody(body, fd.name, fd.email, fd.message);
    assert ContactApi.NormalisePhone(ContactApi.Prop(body, "phone")) ==
      ContactApi.Returns(if fd.phone == "" then None else Some(Trim(fd.phone)));
  }


  /** The status machine: idle and error lead to submitting, submitting to
      success or error, success back to idle; any state may stay put. */
  predicate StatusStep(from: FormStatus, to: FormStatus) {
    || from == to
    || (from in {Idle, Error} && to == Submitting)
    || (from == Submitting && to in {Success, Error})
    || (from == Success && to == Idle)
  }

  /** JavaScript truthiness of an optional message: set and non-empty. */
  predicate IsSet(m: Option<string>) {
    m.Some? && m.value != ""
  }

  /** The state of one mounted `ContactForm`. */
  class ContactForm {
    var formData: FormData
    var errors: FormErrors
    var status: FormStatus
    var serverMessage: string

    /** While a submission is in flight or has succeeded there are no field
        errors, and after a success the inputs are empty. */
    predicate Valid()
      reads this
    {
      && (status in {Submitting, Success} ==> errors == NoErrors)
      && (status == Success ==> formData == EmptyForm)
    }

    /** The initial `useState` values (lines 14-22). */
    constructor ()
      ensures Valid()
      ensures formData == EmptyForm && errors == NoErrors && status == Idle && serverMessage == ""
    {
      formData := EmptyForm;
      errors := NoErrors;
      status := Idle;
      serverMessage := "";
    }

    /** `validateForm` (lines 24-43): records the errors of the current inputs
        and reports whether there are none. */
    method ValidateForm() returns (ok: bool)
      requires Valid() && status in {Idle, Error}
      modifies this
      ensures Valid()
      ensures errors == ClientErrors(formData) && ok == (errors == NoErrors)
      ensures formData == old(formData) && status == old(status) && serverMessage == old(serverMessage)
    {
      var newErrors := NoErrors;
      if Trim(formData.name) == [] {
        newErrors := newErrors.(name := Some(NameMissing));
      }
      if Trim(formData.email) == [] {
        newErrors := newErrors.(email := Some(EmailMissing));
      } else if !MatchesEmailPattern(formData.email) {
        newErrors := newErrors.(email := Some(EmailMalformed));
      }
      if Trim(formData.message) == [] {
        newErrors := newErrors.(message := Some(MessageMissing));
      }
      errors := newErrors;
      ok := newErrors.name.None? && newErrors.email.None? && newErrors.message.None?;
    }

    /** `handleSubmit` up to the request (lines 45-60). A submission starts
        from idle or after an error: after a success the form is not shown,
        and while submitting its button is disabled. Returns
        the data that is posted, or `None` when validation fails and nothing
        is sent. */
    method BeginSubmit() returns (request: Option<FormData>)
      requires Valid() && status in {Idle, Error}
      modifies this
      ensures Valid() && StatusStep(old(status), status)
      ensures errors == ClientErrors(old(formData)) && formData == old(formData)
      ensures request.Some? <==> errors == NoErrors
      ensures request.None? ==> status == old(status) && serverMessage == old(serverMessage)
      ensures request.Some? ==> request.value == formData && status == Submitting && serverMessage == ""
    {
      var ok := ValidateForm();
      if !ok {
        return None;
      }
      status := Submitting;
      serverMessage := "";
      request := Some(formData);
    }

    /** `handleSubmit` once the request settles (lines 62-75). */
    method CompleteSubmit(outcome: FetchOutcome)
      requires Valid() && status == Submitting
      modifies this
      ensures Valid() && StatusStep(old(status), status)
      ensures errors == old(errors)
      ensures outcome.Answered? && outcome.success ==>
        status == Success && serverMessage == outcome.message.GetOr("") && formData == EmptyForm
      ensures outcome.Answered? && !outcome.success ==>
        && status == Error && formData == old(formData)
        && serverMessage == (if outcome.message.Some? && outcome.message.value != "" then outcome.message.value else DefaultError)
      ensures outcome.Threw? ==>
        status == Error && serverMessage == ConnectionError && formData == old(formData)
    {
      match outcome
      case Answered(success, message) =>
        if success {
          status := Success;
          serverMessage := message.GetOr("");
          formData := EmptyForm;
        } else {
          status := Error;
          serverMessage := if message.Some? && message.value != "" then message.value else DefaultError;
        }
      case Threw =>
        status := Error;
        serverMessage := ConnectionError;
    }

    /** The whole of `handleSubmit` (lines 45-76), when nothing is typed while
        the request is in flight. */
    method HandleSubmit(outcome: FetchOutcome) returns (request: Option<FormData>)
      requires Valid() && status in {Idle, Error}
      modifies this
      ensures Valid()
      ensures errors == ClientErrors(old(formData))
      ensures request.Some? <==> errors == NoErrors
      ensures request.None? ==>
        status == old(status) && serverMessage == old(serverMessage) && formData == old(formData)
      ensures request.Some? ==> request.value == old(formData) && status in {Success, Error}
      ensures request.Some? && outcome.Answered? && outcome.success ==>
        status == Success && serverMessage == outcome.message.GetOr("") && formData == EmptyForm
      ensures request.Some? && outcome.Answered? && !outcome.success ==>
        && status == Error && formData == old(formData)
        && serverMessage == (if outcome.message.Some? && outcome.message.value != "" then outcome.message.value else DefaultError)
      ensures request.Some? && outcome.Threw? ==>
        status == Error && serverMessage == ConnectionError && formData == old(formData)
    {
      request := BeginSubmit();
      if request.Some? {
        CompleteSubmit(outcome);
      }
    }

    /** `handleChange` (lines 78-87): the edited input takes the new value and
        loses its error message if it had one; nothing else changes. The inputs
        are not shown after a success. */
    method HandleChange(field: Field, value: string)
      requires Valid() && status != Success
      modifies this
      ensures Valid()
      ensures formData == match field
        case NameInput => old(formData).(name := value)
        case EmailInput => old(formData).(email := value)
        case PhoneInput => old(formData).(phone := value)
        case MessageInput => old(formData).(message := value)
      ensures errors == match field
        case NameInput => old(errors).(name := if IsSet(old(errors).name) then None else old(errors).name)
        case EmailInput => old(errors).(email := if IsSet(old(errors).email) then None else old(errors).email)
        case PhoneInput => old(errors)
        case MessageInput => old(errors).(message := if IsSet(old(errors).message) then None else old(errors).message)
      ensures status == old(status) && serverMessage == old(serverMessage)
    {
      match field
      case NameInput =>
        formData := formData.(name := value);
        if IsSet(errors.name) { errors := errors.(name := None); }
      case EmailInput =>
        formData := formData.(email := value);
        if IsSet(errors.email) { errors := errors.(email := None); }
      case PhoneInput =>
        formData := formData.(phone := value);
      case MessageInput =>
        formData := formData.(message := value);
        if IsSet(errors.message) { errors := errors.(message := None); }
    }

    /** The "Neue Nachricht senden" button of the success view (line 109). */
    method StartOver()
      requires Valid() && status == Success
      modifies this
      ensures Valid() && StatusStep(old(status), status)
      ensures status == Idle
      ensures formData == old(formData) && errors == old(errors) && serverMessage == old(serverMessage)
    {
      status := Idle;
    }
  }
}
