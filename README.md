# Contact pipeline and gallery lightbox of the Baumsteiger Allgäu website

This project models the small amount of logic in the website in Dafny and
proves properties of that model:

- **The `/api/contact` endpoint** (`ContactApi`, `contact_api.dfy`):
  - `validateFormData` takes an untyped parsed JSON body and returns either
    a per-field error map or a normalised record with trimmed fields and an
    optional phone.
  - The plaintext notification mail: reply address, subject and text.
  - The `POST` handler's choice of HTTP status and JSON reply. It is proved
    against an abstract mail relay `send: Mail -> bool`.
- **The `ContactForm` component** (`ContactFormComponent`, `contact_form.dfy`):
  - a class holding the component's four state cells, `formData`, `errors`,
    `status` and `serverMessage`;
  - methods for `validateForm`, `handleSubmit`, `handleChange` and the
    button on the success view.
  - The request is abstracted to its outcome: an answer carrying `success`
    and `message`, or an exception.
  - A cross-module lemma shows that client and server flag the same fields
    for the same string inputs.
  - A second one shows that whatever the client accepts, the server accepts
    too.
- **The `GalleryLightbox` component** (`GalleryLightboxComponent`,
  `gallery_lightbox.dfy`):
  - a class whose `index` is `Option<int>`;
  - methods for open, close, next, previous and the keyboard dispatch.
  - The modular index arithmetic uses JavaScript's truncating `%`, modelled
    as `JsRem`. Lemmas prove bounds preservation, that next and previous are
    mutually inverse, and that `n` steps forward return to the start.
- **Shared text semantics** (`JsText`, `js_text.dfy`):
  - ECMAScript `String.prototype.trim`. Its whitespace set, WhiteSpace plus
    LineTerminator, is also the set the `\s` class matches.
  - The email regular expression `^[^\s@]+@[^\s@]+\.[^\s@]+$` in three
    forms, proved equal:
    - `RegexMatches`, the regex as written, splitting the string at an `@`
      and a `.`;
    - `MatchesEmailPattern`, a direct decision procedure that both
      validators use;
    - `IsEmailShaped`, a field-by-field description: no whitespace, exactly
      one `@`, a non-empty local part, and a domain whose `.` is neither its
      first nor its last character.
- `Wrappers` (`wrappers.dfy`) provides `Option`.

An unparsable body is answered with 500 and the generic failure message:
the exception of `request.json()` is caught by the catch-all branch
(src/pages/api/contact.ts:240-252). The same branch catches the `TypeError`
that `String(phone)` throws for a phone given as an object with its own
`toString` property, or as an array holding one (line 47). The validator is
therefore modelled as returning an `Outcome`, either a result or a throw
(`ContactApi.ValidateFormData`, `ContactApi.Post`).

## Model

| member | source | states |
|---|---|---|
| JsText.Trim | src/pages/api/contact.ts:23 | trimming yields the empty string exactly when the input is all whitespace |
| JsText.TrimBorders | src/pages/api/contact.ts:45 | the trimmed string is no longer than the input and neither starts nor ends with whitespace |
| JsText.TrimFramed | src/pages/api/contact.ts:106-118 | trimming removes exactly a whitespace frame around a body that does not start or end with whitespace |
| JsText.TrimOfNoWs | src/pages/api/contact.ts:46 | a string without whitespace is its own trim |
| JsText.TrimIdempotent | src/pages/api/contact.ts:45-48 | trimming twice gives the same as trimming once; it shows the accepted record is already trimmed |
| JsText.RegexMatches | src/pages/api/contact.ts:29 | defines the regular expression as written: some `@` and some later `.` split the string into three non-empty runs without whitespace or `@` |
| JsText.MatchesEmailPattern | src/pages/api/contact.ts:29 | defines the direct decision both validators use: split at the first `@`, both sides runs without whitespace or `@`, the domain with an inner `.` |
| JsText.IndexOfAt | src/pages/api/contact.ts:29 | the result is the position of the first `@`, or the length when there is none |
| JsText.MatchesEmailPatternIsRegex | src/pages/api/contact.ts:29 | the direct decision accepts exactly the strings the regular expression matches, in both directions |
| JsText.PatternGivesRegexMatch | src/pages/api/contact.ts:29 | an accepted string has a regex match with the `@` and `.` positions chosen |
| JsText.RegexMatchGivesPattern | src/pages/api/contact.ts:29 | every regex match is found by the direct decision: the matched `@` is the first one |
| JsText.EmailPatternIff | src/pages/api/contact.ts:29 | the pattern accepts exactly the strings with no whitespace, exactly one `@` after a non-empty local part, and a `.` in the domain that is neither its first nor its last character |
| JsText.PatternExcludesWs | src/pages/api/contact.ts:29 | an accepted address contains no whitespace and is its own trim |
| ContactApi.MissingText | src/pages/api/contact.ts:23 | defines the guard shared by the three required fields: falsy, not a string, or empty once trimmed (also lines 27 and 33) |
| ContactApi.MissingTextIff | src/pages/api/contact.ts:23 | a required field is missing unless it is a string that is not all whitespace |
| ContactApi.JsString | src/pages/api/contact.ts:47 | `String(v)` of a parsed value: a string converts to itself, and only objects and arrays can throw |
| ContactApi.JoinThrowsIff | src/pages/api/contact.ts:47 | joining converted elements throws exactly when some element's conversion threw |
| ContactApi.ArrayStringThrowsIff | src/pages/api/contact.ts:47 | converting an array throws exactly when converting one of its elements throws |
| ContactApi.ObjectStringThrowsIff | src/pages/api/contact.ts:47 | converting an object throws exactly when it has its own `toString` property, and otherwise gives `[object Object]` |
| ContactApi.FieldErrors | src/pages/api/contact.ts:23-35 | each of name, email and message gets its key exactly when its own rule fails, independently of the others; no other key appears; each key carries its message, and email's message is "required" when it is missing and "invalid" otherwise |
| ContactApi.NormalisePhone | src/pages/api/contact.ts:47 | the phone is absent exactly when the input is falsy; it throws exactly when a truthy value's conversion throws; otherwise it is the trim of the value's conversion, so a string phone becomes its trim and the number 5 becomes "5" |
| ContactApi.ValidateFormData | src/pages/api/contact.ts:14-51 | a null or non-object body gives invalid, errors exactly `general`, no record; it throws exactly when an object passes the field checks and its phone conversion throws; otherwise an object gives the field error map; valid exactly when the map is empty; a record exactly when valid |
| ContactApi.AcceptedBodyNormalised | src/pages/api/contact.ts:41-50 | an accepted body had string name, email and message, its phone converted, and the record holds those strings trimmed and the normalised phone |
| ContactApi.AcceptedRecordIsTrimmed | src/pages/api/contact.ts:41-50 | every field of an accepted record, the phone included, is unchanged by a second trim |
| ContactApi.ErrorKeysShape | src/pages/api/contact.ts:17-38 | the error keys of a returned result are either exactly `general` or a subset of name, email and message |
| ContactApi.StringFieldErrors | src/pages/api/contact.ts:23-35 | for string fields: name is flagged exactly when all whitespace, email exactly when all whitespace or not matching the pattern, message exactly when all whitespace |
| ContactApi.AcceptedStringBody | src/pages/api/contact.ts:37-50 | string fields that pass their rules give a valid result with no errors and the trimmed record, with the address unchanged, or a throw exactly when the phone conversion throws |
| ContactApi.PhoneWithOwnToStringThrows | src/pages/api/contact.ts:47 | once the fields pass, a phone object with its own `toString` makes validation throw, so no record is built |
| ContactApi.EmailWithSurroundingWhitespaceIsInvalid | src/pages/api/contact.ts:27-31 | a non-blank address with whitespace around it is reported as invalid, not as missing, because the pattern is tested on the untrimmed value |
| ContactApi.AcceptedEmailIsUntouched | src/pages/api/contact.ts:29-46 | an accepted address matches the pattern and is stored exactly as submitted |
| ContactApi.PhoneLine | src/pages/api/contact.ts:111 | an absent or empty phone prints "Nicht angegeben", any other is printed as given |
| ContactApi.TextBody | src/pages/api/contact.ts:106-117 | defines the plaintext lines: heading, name, email, phone line, message and footer |
| ContactApi.ComposeMail | src/pages/api/contact.ts:101-118 | the reply address is the submitter's, the subject is the prefix followed by the name, and the text is the body lines exactly, since trimming the template only removes its own framing |
| ContactApi.Post | src/pages/api/contact.ts:53-254 | an unparsable body, or one whose validation throws, gives 500 and sends nothing; a refused body gives 400 with the validator's errors and sends nothing; an accepted body sends its composed mail once and gives 200 or 500 by the relay's outcome; only 200, 400 and 500 occur; success exactly at 200, errors exactly at 400 |
| ContactFormComponent.ClientErrors | src/components/react/ContactForm.tsx:24-43 | name is flagged exactly when blank after trimming, email exactly when blank or not matching the pattern, message exactly when blank |
| ContactFormComponent.ClientAcceptsIff | src/components/react/ContactForm.tsx:24-43 | the form has no errors exactly when name and message are not blank and the email is well shaped |
| ContactFormComponent.PhoneNeverValidated | src/components/react/ContactForm.tsx:24-43 | the phone input never changes the errors |
| ContactFormComponent.ErrorKeys | src/components/react/ContactForm.tsx:42 | the keys of an error record are the fields whose message is set |
| ContactFormComponent.RequestBody | src/components/react/ContactForm.tsx:59 | defines the body `JSON.stringify(formData)` posts: an object with the four inputs as strings |
| ContactFormComponent.SameVerdictPerField | src/components/react/ContactForm.tsx:27-39 | on the form's strings, client and server field checks flag each field alike |
| ContactFormComponent.ClientServerSameErrorKeys | src/components/react/ContactForm.tsx:27-39 | for any form inputs, the server's validation of the posted body does not throw, and the client's error keys equal its error keys |
| ContactFormComponent.ClientAcceptedIsServerAccepted | src/components/react/ContactForm.tsx:48-59 | inputs the form accepts are accepted by the server, which yields the trimmed record, with an empty phone turned into no phone |
| ContactFormComponent.AcceptedBody | src/components/react/ContactForm.tsx:59 | a body holding accepted form strings is validated into the normalised record |
| ContactFormComponent.StatusStep | src/components/react/ContactForm.tsx:50 | defines the status machine: idle or error to submitting (line 50), submitting to success or error (lines 65, 69, 73), success to idle (line 109) |
| ContactFormComponent.ContactForm.constructor | src/components/react/ContactForm.tsx:14-22 | the form starts empty, without errors, idle, with no server message |
| ContactFormComponent.ContactForm.ValidateForm | src/components/react/ContactForm.tsx:24-43 | the stored errors become those of the current inputs, the result is true exactly when there are none, and nothing else changes |
| ContactFormComponent.ContactForm.BeginSubmit | src/components/react/ContactForm.tsx:45-60 | a failed validation leaves status, message and inputs alone and posts nothing; otherwise the inputs are posted, the status becomes submitting and the message is cleared |
| ContactFormComponent.ContactForm.CompleteSubmit | src/components/react/ContactForm.tsx:62-75 | a successful answer gives success, its message and empty inputs; an unsuccessful answer gives error with its message or the default; an exception gives error with the connection message |
| ContactFormComponent.ContactForm.HandleSubmit | src/components/react/ContactForm.tsx:45-76 | validation, then the request: a refused form changes nothing but the errors; a posted one ends in success with the answer's message and empty inputs, in error with the answer's message or the default, or in error with the connection message, the inputs kept in both error cases |
| ContactFormComponent.ContactForm.HandleChange | src/components/react/ContactForm.tsx:78-87 | only the edited input changes; only its error is cleared, and only if one was set; status and message are untouched |
| ContactFormComponent.ContactForm.StartOver | src/components/react/ContactForm.tsx:108-110 | the success view's button returns to idle and changes nothing else |
| GalleryLightboxComponent.JsRem | src/components/react/GalleryLightbox.tsx:23 | the JavaScript remainder completes the truncated quotient times the divisor to the dividend, takes the sign of the dividend and is smaller in magnitude than the divisor |
| GalleryLightboxComponent.Next | src/components/react/GalleryLightbox.tsx:23 | defines a step forward, `(i + 1) % n` |
| GalleryLightboxComponent.Prev | src/components/react/GalleryLightbox.tsx:28 | defines a step back, `(i - 1 + n) % n` |
| GalleryLightboxComponent.NextIndex | src/components/react/GalleryLightbox.tsx:23 | defines the updater of `nextImage`: a closed lightbox stays closed, an open one steps forward |
| GalleryLightboxComponent.PrevIndex | src/components/react/GalleryLightbox.tsx:28 | defines the updater of `prevImage`: a closed lightbox stays closed, an open one steps back |
| GalleryLightboxComponent.KeyDown | src/components/react/GalleryLightbox.tsx:33-47 | defines the key dispatch: closed ignores keys; Escape closes, ArrowRight steps forward, ArrowLeft steps back, other keys change nothing |
| GalleryLightboxComponent.NextInBounds | src/components/react/GalleryLightbox.tsx:23 | within the gallery, next stays within the gallery and wraps from the last image to the first |
| GalleryLightboxComponent.PrevInBounds | src/components/react/GalleryLightbox.tsx:28 | within the gallery, previous stays within the gallery and wraps from the first image to the last |
| GalleryLightboxComponent.PrevAfterNext | src/components/react/GalleryLightbox.tsx:23-28 | previous undoes next |
| GalleryLightboxComponent.NextAfterPrev | src/components/react/GalleryLightbox.tsx:23-28 | next undoes previous |
| GalleryLightboxComponent.NextTimesWraps | src/components/react/GalleryLightbox.tsx:23 | k steps forward from i land on (i + k) mod n |
| GalleryLightboxComponent.FullRound | src/components/react/GalleryLightbox.tsx:23 | n steps forward return to the starting image |
| GalleryLightboxComponent.KeyDownInBounds | src/components/react/GalleryLightbox.tsx:33-47 | no key moves the index out of the gallery, and a closed lightbox ignores every key |
| GalleryLightboxComponent.GalleryLightbox.constructor | src/components/react/GalleryLightbox.tsx:16 | the lightbox starts closed |
| GalleryLightboxComponent.GalleryLightbox.OpenLightbox | src/components/react/GalleryLightbox.tsx:18 | opening at a grid position shows that position |
| GalleryLightboxComponent.GalleryLightbox.CloseLightbox | src/components/react/GalleryLightbox.tsx:19 | closing always gives no index |
| GalleryLightboxComponent.GalleryLightbox.NextImage | src/components/react/GalleryLightbox.tsx:21-24 | next keeps a closed lightbox closed and an open index within the gallery, stepping it forward modulo the image count |
| GalleryLightboxComponent.GalleryLightbox.PrevImage | src/components/react/GalleryLightbox.tsx:26-29 | previous keeps a closed lightbox closed and an open index within the gallery, stepping it back modulo the image count |
| GalleryLightboxComponent.GalleryLightbox.HandleKeyDown | src/components/react/GalleryLightbox.tsx:33-47 | closed: nothing changes; open: Escape closes, ArrowRight is next, ArrowLeft is previous, other keys change nothing; the index stays within the gallery |
| GalleryLightboxComponent.GalleryLightbox.Shown | src/components/react/GalleryLightbox.tsx:125-126 | while open, the shown image is one of the gallery's images |

## Left out

- The nodemailer transport and `sendMail` (src/pages/api/contact.ts:90-98, 228) are foreign I/O. They are replaced by the `send` parameter of `ContactApi.Post`, which is true when the mail was delivered.
- `import.meta.env` lookups, and with them the `from` and `to` addresses of the mail, are configuration.
- The HTML variant of the mail (src/pages/api/contact.ts:119-224) is presentation and reads the clock. Note that its `/\\s/g` and `/\\n/g` match a backslash followed by a letter, not whitespace or newlines.
- The operator log line (`console.error`) is I/O.
- `request.json()` is replaced by an optional parsed value: `None` stands for a parse exception.
- ContactApi.JsString: integers are printed digit for digit, while JavaScript holds a parsed number as a double, rounding integers beyond 2^53 to the nearest double, and prints the shortest digits that round-trip (a phone of 18446744073709551616 is mailed as 18446744073709552000). Double arithmetic is not modelled.
- JSON numbers are integers in the model. Fractions, and the exponent notation `String` uses from 1e21 on, are not modelled. Numbers reach a string conversion only through the phone: a phone sent as a number, or numbers inside a phone sent as an array.
- Strings are sequences of Unicode scalar values, not UTF-16 code units. Whitespace, the only character class involved, is the same either way.
- The unreachable `if (!formData)` branch (src/pages/api/contact.ts:76-87) is not modelled. The contract of `ContactApi.ValidateFormData` (record present exactly when valid) shows it cannot be taken.
- Determinism of validation is not a separate lemma: Dafny functions are deterministic by construction. `POST` keeps no state between calls.
- `fetch`, `response.json()`, the JSX rendering and CSS of ContactForm.tsx are network and UI.
- `ContactFormComponent.ContactForm.HandleSubmit`: it covers a submission with no typing while the request is in flight. Edits during the request are covered by the separate `BeginSubmit`, `HandleChange` and `CompleteSubmit` methods.
- `ContactFormComponent.ContactForm.CompleteSubmit`: a successful answer without a `message` stores the empty string, where the component would store `undefined`.
- Event objects (`preventDefault`, `stopPropagation`), `useCallback`/`useEffect` wiring, the `keydown` listener registration, rendering and animation of GalleryLightbox.tsx are UI plumbing.
- `GalleryLightboxComponent.KeyDown`, next and previous require a non-empty gallery while open (`n != 0`), where JavaScript would compute `NaN`. An empty gallery renders no grid item, so it cannot be opened.
- The gallery's images are fixed for the component's lifetime (`const images`). A later render with a different, shorter `images` prop could leave an open index past the end of the list; that is not modelled.
- CookieConsent.tsx (a localStorage flag) and MobileNav.tsx (a boolean toggle with DOM side effects) are UI.
- public/contact.php is a legacy path that relies on PHP's `filter_var` and `mail()`, whose behaviour is not part of this model.
- deploy.js, debug_sftp.js and debug_sftp_public.js are deployment I/O scripts and are not part of this model.
- src/data/services.ts and src/types/index.ts are static content and type declarations. Their `ContactFormData` and `ContactFormResponse` shapes appear as the datatypes `ContactApi.ContactFormData` and `ContactApi.ResponseBody`.
