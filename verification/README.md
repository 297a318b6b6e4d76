# Contact form: submission handler and form script

This project models the two pieces of logic in the softedigi contact form.

- **`send_email.php`**, the submission handler. A POST request is read through the PHP sanitising filters. Four required-field checks then each append their message to an error list, and none of them stops the others. With no errors, the handler builds a plain-text notification body and a header block. It calls the mail transport once, to `info@softedigi.com` with the fixed subject "New Contact Form Submission", and redirects to `contact.html?status=success` or `?status=error` depending on what the transport returns. With errors, it stores the list in the session and redirects with `status=validation_error`. Any other request method is redirected to `contact.html` with no status.
- **`js/form-handler.js`**, the browser script. The phone input's filter deletes every character outside digits, whitespace, `+`, `(`, `)` and `-`, then cuts the value to 20 characters. A `switch` maps the reported status to an alert message and CSS class; only `success` resets the form.

Layout:

- `wrappers.dfy` (`Wrappers`): `Option`. `None` stands for PHP's `null` and for a missing query parameter.
- `strings.dfy` (`Strings`): joining lines with a separator, splitting text at a separator, cutting text at the first occurrence of a character, text whose only line breaks are CRLF pairs, and the subsequence order. It also proves that splitting undoes joining.
- `send_email.dfy` (`SendEmail`): the handler. The source builds its values step by step, so the model does too. `Validate`, `BuildContent` and `BuildHeaders` are methods that append the way the PHP code does (`$errors[] = …`, `.=`). Each is proved equal to a declarative specification (`ValidationErrors`, `BodyLines`, `HeaderLines`), and the stated properties are proved about those specifications. `HandleRequest` is the whole request. It returns a `Response`: the redirect's `Location`, the single mail handed to the transport (if any) and the errors stored in the session (if any).
- `form_handler.dfy` (`FormHandler`): the phone filter, the status table, and reading a `status` parameter with `URLSearchParams`, as functions with lemmas.
- `status_contract.dfy` (`StatusContract`): what the form shows for the reply to each redirect the handler can write.

The PHP library functions are passed in as function-valued parameters, so the model holds for every choice of them:

- `FILTER_SANITIZE_STRING`, `FILTER_SANITIZE_EMAIL` and `FILTER_VALIDATE_EMAIL`, bundled in `SendEmail.Filters`;
- the mail transport, `transport: MailCall -> bool`;
- `phpversion()`, passed as a string.

PHP's `empty()` is `SendEmail.IsEmpty`. It is true for `null`, `""` and `"0"`.

The form script has entries for `invalid_token` and `rate_limit`, but the handler contains no CSRF token check and no rate limiting, so it never reports either status. The handler also sets no field length limits, checks no phone pattern, sends no acknowledgment mail and adds no `Content-Type` header.

## Model

| member | source | states |
|---|---|---|
| SendEmail.ReadSubmission | send_email.php:8-23 | a required field the request lacks is null (`filter_input` on a missing key); an optional field it lacks keeps its initial "" |
| SendEmail.MissingFieldsReported | send_email.php:12-37 | a request lacking `name`, `email`, `number` or `message` is told that field is required |
| SendEmail.Validate | send_email.php:25-37 | the error list built by four successive appends equals the messages of all failed checks, in check order |
| SendEmail.NoErrorsIff | send_email.php:26-37 | no errors exactly when name, number and message are non-empty and the email is non-empty and accepted by the email validator |
| SendEmail.ErrorReportedIff | send_email.php:26-37 | each of the four messages is in the list exactly when its own check fails, so no check is skipped |
| SendEmail.ErrorsInFixedOrder | send_email.php:26-37 | the error list is a subsequence of Name, Email, Phone number, Message, in that order |
| SendEmail.AllChecksReport | send_email.php:26-37 | four empty fields give all four messages: validation never stops at the first failure |
| SendEmail.BuildContent | send_email.php:42-52 | the body built by successive `.=` is exactly the body lines joined with newlines |
| SendEmail.BodyFrame | send_email.php:42-52 | the body is the title, a blank line, then the Name, Email and Phone Number lines, then only the optional lines, and it ends with "Message:\n" + message + "\n" |
| SendEmail.AbsentOptionalFieldsAddNoLine | send_email.php:46-51 | a request without `service` gets no Service line, and one without `subject` no Subject line: the field keeps its initial "", which `empty()` skips |
| SendEmail.BodyLayout | send_email.php:46-51 | the body has 8 lines plus one per non-empty optional field; Service sits right after Phone Number and Subject follows it; "Message:" is third from last |
| SendEmail.BodyReadsBack | send_email.php:42-52 | when no value holds a line break, splitting the body at newlines gives back exactly its lines |
| SendEmail.BuildHeaders | send_email.php:55-57 | the header block built by `.=` is the From, Reply-To and X-Mailer lines joined with CRLF |
| SendEmail.HeadersCannotBeInjected | send_email.php:55-57 | when the reply address and version hold no CR and no LF, the block splits at CRLF into exactly the three headers, every line break in it belongs to a CRLF separator, and cutting it at bare LFs also gives three lines |
| SendEmail.HandleRequest | send_email.php:1-80 | non-POST: redirect to `contact.html`, no validation, no mail. POST with errors: redirect with `validation_error`, no mail, errors stored. POST without errors: one mail to the recipient with the fixed subject, built body and headers; the redirect carries `success` exactly when the transport accepts it, else `error` |
| SendEmail.SubjectFieldOnlyInBody | send_email.php:21-23 | changing the submitted `subject` changes only `subjectField`, never another field, so it cannot reach the mail subject |
| FormHandler.RemoveDisallowed | js/form-handler.js:88 | the filtered value holds only digits, whitespace, `+`, `(`, `)`, `-` and is no longer than the input |
| FormHandler.RemoveDisallowedIsSubsequence | js/form-handler.js:88 | the filter only deletes: its result is a subsequence of the input |
| FormHandler.RemoveDisallowedCounts | js/form-handler.js:88 | each allowed character occurs as often as in the input; each other character is gone |
| FormHandler.RemoveDisallowedKeepsAllowed | js/form-handler.js:88 | a value made only of allowed characters is unchanged |
| FormHandler.FormatPhone | js/form-handler.js:88-92 | the input's new value has only allowed characters, is at most 20 long, is a prefix of the filtered value, and is shorter than it only when cut at 20 |
| FormHandler.FormatPhoneIsSubsequence | js/form-handler.js:88-91 | the new value keeps the input's order and inserts nothing |
| FormHandler.FormatPhoneIdempotent | js/form-handler.js:88-92 | filtering the filtered value changes nothing |
| FormHandler.FormatPhoneFixedPointIff | js/form-handler.js:88-92 | the value is left unchanged exactly when it has at most 20 characters, all allowed |
| FormHandler.StatusAlert | js/form-handler.js:50-71 | total table: only `success` gets the success class and resets the form; only `rate_limit` gets the warning class; the four named statuses get their own messages; any other value, a missing one included, gets the generic message with the danger class |
| FormHandler.FirstNamed | js/form-handler.js:43-44 | `get` finds a value exactly when some query piece has the name, and then it is the value of the first such piece |
| StatusContract.TargetsReadBack | send_email.php:60-79 | every redirect target the handler writes, resolved against any base without `?`, reads back from its URL to the status it carries, and the bare target to none |
| StatusContract.PageReplyShowsGenericError | js/form-handler.js:41-44 | the script parses the reply's body; the contact page's HTML yields no status, so the generic danger alert shows and the form never resets, whatever the handler reported |
| StatusContract.HandlerStatusesShown | js/form-handler.js:50-71 | with the status read from the reply's URL: `success` shows the thank-you message and resets, `error` falls to the generic danger alert, `validation_error` asks to check the inputs; the handler never emits `invalid_token` or `rate_limit` |
| StatusContract.ResetOnlyOnSuccess | js/form-handler.js:51-55 | with the status read from the reply's URL, the form resets exactly when the handler reported `success` |

## Left out

- `mail()`, `header()` redirects and `exit()`: the transport is a function parameter, and the redirect is the returned `Response`.
- `session_start()` and the session store: only the stored error list is modelled, as `Response.sessionErrors`.
- How FILTER_SANITIZE_STRING, FILTER_SANITIZE_EMAIL and FILTER_VALIDATE_EMAIL work inside: these are PHP library code, so they are parameters. `filter_input` returning `false` for an array-valued field is not modelled either; every field is one string.
- `phpversion()` is a parameter, because it comes from the runtime.
- `test_mail.php` is not part of this model. It is one hard-coded `mail()` call with no logic.
- The form script's CSRF token fetch, its `fetch` POST and promise chain, its DOM writes (`innerHTML`, `className`, `form.reset()`, the input's `value`) and the intl-tel-input `getNumber()` call: these are browser and library plumbing. The model gives the values those writes use; the `resetsForm` flag stands for `form.reset()`.
- `fetch` following the redirect is not modelled as a step. The model takes its outcome as given: the reply's URL is the redirect target resolved against a base with no `?`, and the reply's body is the contact page.
- `URLSearchParams` percent-decoding and its turning `+` into a space are not modelled. No status value the handler writes contains `%` or `+`.
- JavaScript strings are UTF-16, while the model's strings are sequences of code points. After the filter, every character left is in the Basic Multilingual Plane, so `length` and `substring(0, 20)` count the same units in both. Characters the filter deletes never reach the truncation.
- SendEmail.HeadersCannotBeInjected: assumes the reply address and the version hold no CR and no LF. The model does not derive this from the sanitisers, because their behaviour is a parameter.
- SendEmail.BodyReadsBack: assumes no body value holds an LF, for the same reason.
- PHP strings are byte strings, while the model's strings are sequences of code points. Every separator and literal the handler writes is ASCII, so cutting and joining give the same pieces either way.
- StatusContract.PageReplyShowsGenericError: stated only for a page that holds no `&`. The contact page is not part of this model, and a page containing `&status=success` would be read differently.

## Findings

| source | as written | input that shows it | evidently intended | confidence | as-written member | corrected member |
|---|---|---|---|---|---|---|
| js/form-handler.js:41-44 | the status is read by parsing the reply's body text as a query string | any submission. `fetch` follows the redirect, so the body is the HTML of `contact.html`: it starts with `<` and, without `&`, has no piece named `status` | read `status` from the query of the reply's URL (`response.url`) | not executed; medium | StatusContract.PageReplyShowsGenericError | StatusContract.HandlerStatusesShown |
