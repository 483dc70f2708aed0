/** The server side of the contact form: the `/api/contact` POST handler.
    It re-validates the submitted fields, composes the notification mail and
    turns the outcome into a JSON response with an HTTP status. */
module ContactApi {
  import opened Wrappers
  import opened JsText

  /** A value as `request.json()` parses it. Numbers are integers here. */
  datatype Json =
    | JNull
    | JBool(b: bool)
    | JNum(n: int)
    | JStr(s: string)
    | JArr(items: seq<Json>)
    | JObj(fields: map<string, Json>)

  /** JavaScript truthiness of a parsed value. */
  predicate IsTruthy(v: Json) {
    match v
    case JNull => false
    case JBool(b) => b
    case JNum(n) => n != 0
    case JStr(s) => s != ""
    case JArr(_) => true
    case JObj(_) => true
  }

  /** `typeof v` for a parsed value (`typeof null` is "object"). */
  function TypeOf(v: Json): string {
    match v
    case JBool(_) => "boolean"
    case JNum(_) => "number"
    case JStr(_) => "string"
    case _ => "object"
  }

  /** The property read `data.key`; `None` is `undefined`. Arrays have no
      property of the names the form uses. */
  function Prop(data: Json, key: string): Option<Json> {
    if data.JObj? && key in data.fields then Some(data.fields[key]) else None
  }

  /** Truthiness of a property that may be `undefined`. */
  predicate Truthy(v: Option<Json>) {
    v.Some? && IsTruthy(v.value)
  }

  /** The guard on each required field (contact.ts lines 23, 27, 33):
      falsy, not a string, or blank once trimmed. */
  predicate MissingText(v: Option<Json>) {
    !Truthy(v) || !v.value.JStr? || |Trim(v.value.s)| == 0
  }

  /** A string property is missing exactly when it is blank after trimming;
      a property that is absent or not a string is always missing. */
  lemma MissingTextIff(v: Option<Json>)
    ensures MissingText(v) <==> !(v.Some? && v.value.JStr? && !AllWs(v.value.s))
  {
  }

  /** The result of an evaluation that may throw a `TypeError`. */
  datatype Outcome<T> = Returns(value: T) | Throws

  /** `String(v)` for a parsed value. An object with its own `toString`
      property cannot be converted: a parsed value is never callable, so the
      conversion falls back to `valueOf`, which yields the object itself, and
      a `TypeError` is thrown. An array converts its elements (`null` becomes
      the empty string) and throws when one of them does. */
  function JsString(v: Json): (r: Outcome<string>)
    ensures v.JStr? ==> r == Returns(v.s)
    ensures r.Throws? ==> v.JObj? || v.JArr?
  {
    match v
    case JNull => Returns("null")
    case JBool(b) => Returns(if b then "true" else "false")
    case JNum(n) => Returns(Decimal(n))
    case JStr(s) => Returns(s)
    case JArr(items) =>
      JoinWithCommas(seq(|items|, i requires 0 <= i < |items| =>
        if items[i].JNull? then Returns("") else JsString(items[i])))
    case JObj(fields) => if "toString" in fields then Throws else Returns("[object Object]")
  }

  /** `Array.prototype.join` with its default separator, over the already
      converted elements. */
  function JoinWithCommas(parts: seq<Outcome<string>>): Outcome<string> {
    if |parts| == 0 then Returns("")
    else if parts[0].Throws? then Throws
    else if |parts| == 1 then parts[0]
    else match JoinWithCommas(parts[1..])
      case Throws => Throws
      case Returns(rest) => Returns(parts[0].value + "," + rest)
  }

  /** Joining throws exactly when converting some element threw. */
  lemma {:induction false} JoinThrowsIff(parts: seq<Outcome<string>>)
    ensures JoinWithCommas(parts).Throws? <==> exists i :: 0 <= i < |parts| && parts[i].Throws?
  {
    if |parts| > 1 && parts[0].Returns? {
      JoinThrowsIff(parts[1..]);
      if JoinWithCommas(parts[1..]).Throws? {
        var i :| 0 <= i < |parts[1..]| && parts[1..][i].Throws?;
        assert parts[i + 1].Throws?;
      } else {
        forall i | 0 <= i < |parts| ensures parts[i].Returns? {
          if i > 0 {
            assert parts[i] == parts[1..][i - 1];
          }
        }
      }
    }
  }

  /** An array fails to convert exactly when one of its elements does. */
  lemma ArrayStringThrowsIff(items: seq<Json>)
    ensures JsString(JArr(items)).Throws? <==> exists i :: 0 <= i < |items| && JsString(items[i]).Throws?
  {
    var parts := seq(|items|, i requires 0 <= i < |items| =>
      if items[i].JNull? then Returns("") else JsString(items[i]));
    JoinThrowsIff(parts);
    assert forall i :: 0 <= i < |items| ==> (parts[i].Throws? <==> JsString(items[i]).Throws?);
  }

  /** An object fails to convert exactly when it has its own `toString`. */
  lemma ObjectStringThrowsIff(fields: map<string, Json>)
    ensures JsString(JObj(fields)).Throws? <==> "toString" in fields
    ensures JsString(JObj(fields)).Returns? ==> JsString(JObj(fields)).value == "[object Object]"
  {
  }

  /** Plain decimal notation of an integer. */
  function Decimal(n: int): string {
    if n < 0 then "-" + Digits(-n) else Digits(n)
  }

  function Digits(n: nat): string
    decreases n
  {
    if n < 10 then [DigitChar(n)] else Digits(n / 10) + [DigitChar(n % 10)]
  }

  function DigitChar(d: nat): char
    requires d < 10
  {
    "0123456789"[d]
  }

  const InvalidRequest := "Ungültige Anfrage"
  const NameRequired := "Name ist erforderlich"
  const EmailRequired := "E-Mail ist erforderlich"
  const EmailInvalid := "Ungültige E-Mail-Adresse"
  const MessageRequired := "Nachricht ist erforderlich"

  /** The normalised submission (`ContactFormData`). */
  datatype ContactFormData = ContactFormData(name: string, email: string, phone: Option<string>, message: string)

  /** What `validateFormData` returns. */
  datatype Validation = Validation(isValid: bool, errors: map<string, string>, formData: Option<ContactFormData>)

  /** The error map of lines 23-35. Each field is judged on its own and adds
      its key independently of the others, so every failing field appears. */
  function FieldErrors(name: Option<Json>, email: Option<Json>, message: Option<Json>): (errors: map<string, string>)
    ensures errors.Keys <= {"name", "email", "message"}
    ensures "name" in errors <==> MissingText(name)
    ensures "name" in errors ==> errors["name"] == NameRequired
    ensures "email" in errors <==> MissingText(email) || !MatchesEmailPattern(email.value.s)
    ensures "email" in errors ==> errors["email"] == (if MissingText(email) then EmailRequired else EmailInvalid)
    ensures "message" in errors <==> MissingText(message)
    ensures "message" in errors ==> errors["message"] == MessageRequired
  {
    var afterName: map<string, string> := if MissingText(name) then map["name" := NameRequired] else map[];
    var afterEmail :=
      if MissingText(email) then afterName["email" := EmailRequired]
      else if !MatchesEmailPattern(email.value.s) then afterName["email" := EmailInvalid]
      else afterName;
    if MissingText(message) then afterEmail["message" := MessageRequired] else afterEmail
  }

  /** `phone ? String(phone).trim() : undefined` (line 47): no phone for a
      falsy value, otherwise the trimmed conversion, which throws when the
      conversion does. */
  function NormalisePhone(phone: Option<Json>): (r: Outcome<Option<string>>)
    ensures r == Returns(None) <==> !Truthy(phone)
    ensures r.Throws? <==> Truthy(phone) && JsString(phone.value).Throws?
    ensures Truthy(phone) && JsString(phone.value).Returns? ==>
      r == Returns(Some(Trim(JsString(phone.value).value)))
    ensures Truthy(phone) && phone.value.JStr? ==> r == Returns(Some(Trim(phone.value.s)))
  {
    if !Truthy(phone) then Returns(None)
    else match JsString(phone.value)
      case Throws => Throws
      case Returns(text) => Returns(Some(Trim(text)))
  }

  /** `validateFormData` (lines 14-51). It throws only while building the
      accepted record, when `String(phone)` throws. */
  function ValidateFormData(data: Json): (v: Outcome<Validation>)
    // A body that is not a non-null object is refused as a whole.
    ensures !IsTruthy(data) || TypeOf(data) != "object" ==>
      v == Returns(Validation(false, map["general" := InvalidRequest], None))
    ensures v.Throws? <==>
      && IsTruthy(data) && TypeOf(data) == "object"
      && FieldErrors(Prop(data, "name"), Prop(data, "email"), Prop(data, "message")) == map[]
      && NormalisePhone(Prop(data, "phone")).Throws?
    ensures IsTruthy(data) && TypeOf(data) == "object" && v.Returns? ==>
      v.value.errors == FieldErrors(Prop(data, "name"), Prop(data, "email"), Prop(data, "message"))
    // The three views of the outcome agree.
    ensures v.Returns? ==> (v.value.isValid <==> v.value.errors == map[])
    ensures v.Returns? ==> (v.value.formData.Some? <==> v.value.isValid)
  {
    if !IsTruthy(data) || TypeOf(data) != "object" then
      var errors := map["general" := InvalidRequest];
      assert "general" in errors;
      Returns(Validation(false, errors, None))
    else
      var name, email, phone, message := Prop(data, "name"), Prop(data, "email"), Prop(data, "phone"), Prop(data, "message");
      var errors := FieldErrors(name, email, message);
      if |errors| > 0 then
        Returns(Validation(false, errors, None))
      else
        assert "name" !in errors && "email" !in errors && "message" !in errors;
        match NormalisePhone(phone)
        case Throws => Throws
        case Returns(normalisedPhone) =>
          Returns(Validation(true, map[], Some(ContactFormData(
            Trim(name.value.s), Trim(email.value.s), normalisedPhone, Trim(message.value.s)))))
  }

  /** An accepted body had string values for the three required properties,
      and the record is those strings trimmed, with the phone normalised. */
  lemma AcceptedBodyNormalised(data: Json)
    requires ValidateFormData(data).Returns? && ValidateFormData(data).value.isValid
    ensures && Prop(data, "name").Some? && Prop(data, "name").value.JStr?
            && Prop(data, "email").Some? && Prop(data, "email").value.JStr?
            && Prop(data, "message").Some? && Prop(data, "message").value.JStr?
    ensures NormalisePhone(Prop(data, "phone")).Returns?
    ensures ValidateFormData(data).value.formData == Some(ContactFormData(
      Trim(Prop(data, "name").value.s),
      Trim(Prop(data, "email").value.s),
      NormalisePhone(Prop(data, "phone")).value,
      Trim(Prop(data, "message").value.s)))
  {
    var errors := FieldErrors(Prop(data, "name"), Prop(data, "email"), Prop(data, "message"));
    assert "name" !in errors && "email" !in errors && "message" !in errors;
  }

  /** Every field of an accepted record is already trimmed: trimming it
      again changes nothing. */
  lemma AcceptedRecordIsTrimmed(data: Json)
    requires ValidateFormData(data).Returns? && ValidateFormData(data).value.isValid
    ensures var d := ValidateFormData(data).value.formData.value;
      && Trim(d.name) == d.name && Trim(d.email) == d.email && Trim(d.message) == d.message
      && (d.phone.Some? ==> Trim(d.phone.value) == d.phone.value)
  {
    AcceptedBodyNormalised(data);
    TrimIdempotent(Prop(data, "name").value.s);
    TrimIdempotent(Prop(data, "email").value.s);
    TrimIdempotent(Prop(data, "message").value.s);
    var phone := Prop(data, "phone");
    if Truthy(phone) {
      TrimIdempotent(JsString(phone.value).value);
    }
  }

  /** The error keys a returned result can carry: `general` alone, or a part
      of the three required fields. */
  lemma ErrorKeysShape(data: Json)
    ensures var v := ValidateFormData(data);
      v.Returns? ==> v.value.errors.Keys == {"general"} || v.value.errors.Keys <= {"name", "email", "message"}
  {
  }

  /** For string values of the three required fields, each key is in the
      error map exactly when its own field fails its own rule. */
  lemma StringFieldErrors(name: string, email: string, message: string)
    ensures var errors := FieldErrors(Some(JStr(name)), Some(JStr(email)), Some(JStr(message)));
      && errors.Keys <= {"name", "email", "message"}
      && ("name" in errors <==> AllWs(name))
      && ("email" in errors <==> AllWs(email) || !MatchesEmailPattern(email))
      && ("message" in errors <==> AllWs(message))
  {
    MissingTextIff(Some(JStr(name)));
    MissingTextIff(Some(JStr(email)));
    MissingTextIff(Some(JStr(message)));
  }

  /** An object whose required string fields pass their rules is accepted,
      and the record it yields keeps the address as given, unless converting
      the phone throws. */
  lemma AcceptedStringBody(data: Json, name: string, email: string, message: string)
    requires data.JObj?
    requires Prop(data, "name") == Some(JStr(name))
    requires Prop(data, "email") == Some(JStr(email))
    requires Prop(data, "message") == Some(JStr(message))
    requires !AllWs(name) && MatchesEmailPattern(email) && !AllWs(message)
    ensures NormalisePhone(Prop(data, "phone")).Throws? ==> ValidateFormData(data) == Throws
    ensures NormalisePhone(Prop(data, "phone")).Returns? ==>
      ValidateFormData(data) == Returns(Validation(true, map[], Some(ContactFormData(
        Trim(name), email, NormalisePhone(Prop(data, "phone")).value, Trim(message)))))
  {
    var errors := FieldErrors(Prop(data, "name"), Prop(data, "email"), Prop(data, "message"));
    StringFieldErrors(name, email, message);
    assert errors.Keys == {};
    assert errors == map[];
    if NormalisePhone(Prop(data, "phone")).Returns? {
      AcceptedBodyNormalised(data);
      PatternExcludesWs(email);
    }
  }

  /** A phone given as an object with its own `toString` makes the handler
      throw once the other fields pass, so such a body is never accepted. */
  lemma PhoneWithOwnToStringThrows(data: Json, phoneFields: map<string, Json>)
    requires data.JObj? && Prop(data, "phone") == Some(JObj(phoneFields)) && "toString" in phoneFields
    requires FieldErrors(Prop(data, "name"), Prop(data, "email"), Prop(data, "message")) == map[]
    ensures ValidateFormData(data) == Throws
  {
    ObjectStringThrowsIff(phoneFields);
  }

  /** The email check is two-staged: a blank value is "required", and a
      non-blank one is matched UNTRIMMED, so whitespace around an otherwise
      correct address makes it "invalid". */
  lemma EmailWithSurroundingWhitespaceIsInvalid(data: Json, email: string)
    requires data.JObj? && Prop(data, "email") == Some(JStr(email))
    requires Trim(email) != [] && Trim(email) != email
    ensures ValidateFormData(data).Returns? && "email" in ValidateFormData(data).value.errors
    ensures ValidateFormData(data).value.errors["email"] == EmailInvalid
  {
    var e := Prop(data, "email");
    assert !MissingText(e);
    if MatchesEmailPattern(email) {
      PatternExcludesWs(email);
      assert false;
    }
    var errors := FieldErrors(Prop(data, "name"), e, Prop(data, "message"));
    assert errors["email"] == EmailInvalid;
    assert errors != map[];
  }

  /** An address the pattern accepts is accepted unchanged: trimming it is
      the identity. */
  lemma AcceptedEmailIsUntouched(data: Json)
    requires ValidateFormData(data).Returns? && ValidateFormData(data).value.isValid
    ensures MatchesEmailPattern(Prop(data, "email").value.s)
    ensures ValidateFormData(data).value.formData.value.email == Prop(data, "email").value.s
  {
    AcceptedBodyNormalised(data);
    PatternExcludesWs(Prop(data, "email").value.s);
  }

  const SubjectPrefix := "Neue Kontaktanfrage von "
  const PhoneNotGiven := "Nicht angegeben"
  const MailFooter := "Diese Nachricht wurde über das Kontaktformular auf baumsteiger-allgaeu.de gesendet."

  /** The outbound message; sender, recipient and the HTML variant are
      configuration and presentation and are not modelled. */
  datatype Mail = Mail(replyTo: string, subject: string, text: string)

  /** `formData.phone || "Nicht angegeben"` (line 111). */
  function PhoneLine(phone: Option<string>): (r: string)
    ensures phone.None? || phone == Some("") ==> r == PhoneNotGiven
    ensures phone.Some? && phone.value != "" ==> r == phone.value
  {
    if phone.Some? && phone.value != "" then phone.value else PhoneNotGiven
  }

  /** The lines of the plaintext body, without the template's surrounding
      whitespace. */
  function TextBody(d: ContactFormData): string {
    "Neue Kontaktanfrage über die Website\n\nName: " + d.name
      + "\nE-Mail: " + d.email
      + "\nTelefon: " + PhoneLine(d.phone)
      + "\n\nNachricht:\n" + d.message
      + "\n\n---\n" + MailFooter
  }

  /** `mailOptions` (lines 101-118): replies go to the submitter, the subject
      names them, and the text is the body lines exactly, whatever the fields
      hold, since `.trim()` only removes the template's own line breaks. */
  function ComposeMail(d: ContactFormData): (m: Mail)
    ensures m.replyTo == d.email
    ensures m.subject == SubjectPrefix + d.name
    ensures m.text == TextBody(d)
  {
    var template := "\n" + TextBody(d) + "\n      ";
    var body := TextBody(d);
    var head := "Neue Kontaktanfrage über die Website\n\nName: ";
    var middle := body[|head|..|body| - |MailFooter|];
    assert body == head + middle + MailFooter;
    assert body[0] == head[0] == 'N';
    assert body[|body| - 1] == MailFooter[|MailFooter| - 1] == '.';
    TrimFramed("\n", body, "\n      ");
    Mail(d.email, SubjectPrefix + d.name, Trim(template))
  }

  const ValidationFailed := "Validierungsfehler"
  const Sent := "Ihre Nachricht wurde erfolgreich gesendet. Wir melden uns schnellstmöglich bei Ihnen."
  const SendFailed := "Es ist ein Fehler beim Senden aufgetreten. Bitte versuchen Sie es später erneut oder kontaktieren Sie uns telefonisch."

  /** The JSON body of a response (`ContactFormResponse`). */
  datatype ResponseBody = ResponseBody(success: bool, message: string, errors: Option<map<string, string>>)

  datatype Response = Response(status: int, body: ResponseBody)

  /** The `POST` handler (lines 53-254). `body` is the result of
      `request.json()`, `None` when parsing threw; `send` is the mail relay,
      true when `sendMail` resolved and false when it threw. `sent` is the
      message handed to the relay, if any. */
  method Post(body: Option<Json>, send: Mail -> bool) returns (response: Response, sent: Option<Mail>)
    // An unparsable body, or one whose validation throws, lands in the
    // catch-all branch.
    ensures body.None? || ValidateFormData(body.value).Throws? ==>
      response == Response(500, ResponseBody(false, SendFailed, None)) && sent.None?
    // A refused body gets the validator's errors and no mail is sent.
    ensures body.Some? && ValidateFormData(body.value).Returns? && !ValidateFormData(body.value).value.isValid ==>
      && response == Response(400, ResponseBody(false, ValidationFailed, Some(ValidateFormData(body.value).value.errors)))
      && sent.None?
    // An accepted body is sent exactly once, composed from the normalised data.
    ensures body.Some? && ValidateFormData(body.value).Returns? && ValidateFormData(body.value).value.isValid ==>
      && sent == Some(ComposeMail(ValidateFormData(body.value).value.formData.value))
      && response == (if send(sent.value) then Response(200, ResponseBody(true, Sent, None))
                      else Response(500, ResponseBody(false, SendFailed, None)))
    // The outcome classes, whatever the input.
    ensures response.status in {200, 400, 500}
    ensures response.body.success <==> response.status == 200
    ensures response.body.errors.Some? <==> response.status == 400
    ensures response.status == 200 ==> sent.Some? && send(sent.value)
  {
    sent := None;
    if body.None? {
      response := Response(500, ResponseBody(false, SendFailed, None));
      return;
    }
    var outcome := ValidateFormData(body.value);
    if outcome.Throws? {
      response := Response(500, ResponseBody(false, SendFailed, None));
      return;
    }
    var validation := outcome.value;
    if !validation.isValid {
      response := Response(400, ResponseBody(false, ValidationFailed, Some(validation.errors)));
      return;
    }
    // Lines 76-87 guard against a missing `formData`; the contract of
    // ValidateFormData shows that branch cannot be taken.
    var formData := validation.formData.value;
    var mail := ComposeMail(formData);
    sent := Some(mail);
    if send(mail) {
      response := Response(200, ResponseBody(true, Sent, None));
    } else {
      response := Response(500, ResponseBody(false, SendFailed, None));
    }
  }
}
