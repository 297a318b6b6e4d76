/** The contact form's server-side submission handler: reads the sanitised
    POST fields, runs four required-field checks that accumulate error
    messages, builds the plain-text notification and its headers, hands them
    to the mail transport once, and answers with a redirect to the contact
    page carrying a status. */
module SendEmail {
  import opened Wrappers
  import opened Strings

  const Recipient := "info@softedigi.com"
  const MailSubject := "New Contact Form Submission"
  const BodyTitle := "New Contact Form Submission"
  const Sender := "no-reply@softedigi.com"
  const ContactPage := "contact.html"

  const NameRequired := "Name is required."
  const EmailRequired := "A valid email is required."
  const NumberRequired := "Phone number is required."
  const MessageRequired := "Message is required."

  /** Every validation message, in the order the checks run. */
  const AllErrors := [NameRequired, EmailRequired, NumberRequired, MessageRequired]

  /** The form-encoded request fields, by name, as the client sent them. */
  type PostData = map<string, string>

  /** The PHP filters the handler relies on. Their internals belong to PHP,
      so the model takes them as given functions. */
  datatype Filters = Filters(
    sanitizeString: string -> string,  // FILTER_SANITIZE_STRING
    sanitizeEmail: string -> string,   // FILTER_SANITIZE_EMAIL
    validEmail: string -> bool)        // filter_var(.., FILTER_VALIDATE_EMAIL) succeeds

  /** The handler's variables after reading the request. A required field is
      `None` when the request did not carry it (`filter_input` gives null);
      `service` and `subjectField` keep their initial "" in that case. */
  datatype Submission = Submission(
    name: Option<string>,
    email: Option<string>,
    number: Option<string>,
    message: Option<string>,
    service: string,
    subjectField: string)

  /** PHP's `empty()` on the values the handler holds: null, "" and "0". */
  predicate IsEmpty(v: Option<string>) {
    v == None || v == Some("") || v == Some("0")
  }

  /** A value interpolated into a double-quoted PHP string: null reads as "". */
  function Text(v: Option<string>): string {
    match v
    case None => ""
    case Some(s) => s
  }

  /** `filter_input(INPUT_POST, key, filter)`: null when the field is absent. */
  function FilterInput(post: PostData, key: string, filter: string -> string): Option<string> {
    if key in post then Some(filter(post[key])) else None
  }

  /** Reads and sanitises the fields. A required field the request lacks is
      null; an optional one keeps its initial "". The form's `subject` input
      lands in `subjectField`; it never becomes the mail subject. */
  function ReadSubmission(post: PostData, filters: Filters): (s: Submission)
    ensures "name" !in post ==> s.name == None
    ensures "email" !in post ==> s.email == None
    ensures "number" !in post ==> s.number == None
    ensures "message" !in post ==> s.message == None
    ensures "service" !in post ==> s.service == ""
    ensures "subject" !in post ==> s.subjectField == ""
  {
    Submission(
      FilterInput(post, "name", filters.sanitizeString),
      FilterInput(post, "email", filters.sanitizeEmail),
      FilterInput(post, "number", filters.sanitizeString),
      FilterInput(post, "message", filters.sanitizeString),
      if "service" in post then filters.sanitizeString(post["service"]) else "",
      if "subject" in post then filters.sanitizeString(post["subject"]) else "")
  }

  // ---------------------------------------------------------------------
  // Validation

  /** One required-field check: whether it failed, and what it reports. */
  datatype Check = Check(failed: bool, message: string)

  /** The messages of the failed checks, in check order. */
  function Failures(cs: seq<Check>): (errs: seq<string>)
    ensures |errs| <= |cs|
    decreases |cs|
  {
    if cs == [] then []
    else (if cs[0].failed then [cs[0].message] else []) + Failures(cs[1..])
  }

  function Messages(cs: seq<Check>): seq<string> {
    seq(|cs|, i requires 0 <= i < |cs| => cs[i].message)
  }

  /** The email check fails for an empty value or one the validator rejects. */
  predicate EmailRejected(email: Option<string>, validEmail: string -> bool) {
    IsEmpty(email) || !validEmail(email.value)
  }

  /** The four required-field checks, in the order the handler runs them. */
  function RequiredChecks(s: Submission, validEmail: string -> bool): seq<Check> {
    [Check(IsEmpty(s.name), NameRequired),
     Check(EmailRejected(s.email, validEmail), EmailRequired),
     Check(IsEmpty(s.number), NumberRequired),
     Check(IsEmpty(s.message), MessageRequired)]
  }

  /** The error list the handler is meant to produce: every failed check's
      message, none skipped, in check order. */
  function ValidationErrors(s: Submission, validEmail: string -> bool): seq<string> {
    Failures(RequiredChecks(s, validEmail))
  }

  /** Runs the four checks one after another, appending to `errors`; no
      check stops the others. */
  method Validate(s: Submission, validEmail: string -> bool) returns (errors: seq<string>)
    ensures errors == ValidationErrors(s, validEmail)
  {
    ghost var cs := RequiredChecks(s, validEmail);
    errors := [];
    if IsEmpty(s.name) {
      errors := errors + [NameRequired];
    }
    assert errors == Failures(cs[..1]) by { assert cs[..1][1..] == []; }
    if IsEmpty(s.email) || !validEmail(s.email.value) {
      errors := errors + [EmailRequired];
    }
    FailuresSnoc(cs[..1], cs[1]);
    assert cs[..2] == cs[..1] + [cs[1]];
    if IsEmpty(s.number) {
      errors := errors + [NumberRequired];
    }
    FailuresSnoc(cs[..2], cs[2]);
    assert cs[..3] == cs[..2] + [cs[2]];
    if IsEmpty(s.message) {
      errors := errors + [MessageRequired];
    }
    FailuresSnoc(cs[..3], cs[3]);
    assert cs == cs[..3] + [cs[3]];
  }

  /** Running one more check adds its message at the end exactly when it fails. */
  lemma {:induction false} FailuresSnoc(cs: seq<Check>, c: Check)
    ensures Failures(cs + [c]) == Failures(cs) + (if c.failed then [c.message] else [])
    decreases |cs|
  {
    var last := if c.failed then [c.message] else [];
    if cs == [] {
      assert [c][1..] == [];
      assert Failures([c]) == last + Failures([]);
    } else {
      var first := if cs[0].failed then [cs[0].message] else [];
      assert (cs + [c])[0] == cs[0] && (cs + [c])[1..] == cs[1..] + [c];
      FailuresSnoc(cs[1..], c);
      assert Failures(cs + [c]) == first + (Failures(cs[1..]) + last);
      assert Failures(cs) == first + Failures(cs[1..]);
    }
  }

  /** No errors exactly when no check failed. */
  lemma {:induction false} FailuresEmptyIff(cs: seq<Check>)
    ensures Failures(cs) == [] <==> forall i :: 0 <= i < |cs| ==> !cs[i].failed
    decreases |cs|
  {
    if cs != [] {
      FailuresEmptyIff(cs[1..]);
      assert forall i :: 1 <= i < |cs| ==> cs[i] == cs[1..][i - 1];
    }
  }

  /** A message is reported exactly when some check carrying it failed. */
  lemma {:induction false} FailuresMember(cs: seq<Check>, m: string)
    ensures m in Failures(cs) <==> exists i :: 0 <= i < |cs| && cs[i].failed && cs[i].message == m
    decreases |cs|
  {
    if cs != [] {
      FailuresMember(cs[1..], m);
      if exists i :: 0 <= i < |cs| && cs[i].failed && cs[i].message == m {
        var i :| 0 <= i < |cs| && cs[i].failed && cs[i].message == m;
        if i > 0 {
          assert cs[1..][i - 1] == cs[i];
        }
      }
      if m in Failures(cs[1..]) {
        var j :| 0 <= j < |cs[1..]| && cs[1..][j].failed && cs[1..][j].message == m;
        assert cs[j + 1] == cs[1..][j];
      }
    }
  }

  /** Reported messages keep the order of the checks. */
  lemma {:induction false} FailuresInOrder(cs: seq<Check>)
    ensures IsSubsequence(Failures(cs), Messages(cs))
    decreases |cs|
  {
    if cs != [] {
      FailuresInOrder(cs[1..]);
      var ms := Messages(cs);
      assert ms != [] && ms[1..] == Messages(cs[1..]) && ms[0] == cs[0].message;
      if cs[0].failed {
        var fs := Failures(cs);
        assert fs == [cs[0].message] + Failures(cs[1..]);
        assert fs[0] == ms[0] && fs[1..] == Failures(cs[1..]);
      } else {
        assert Failures(cs) == Failures(cs[1..]);
      }
    }
  }

  /** When every check fails, every message is reported. */
  lemma {:induction false} FailuresAllFailed(cs: seq<Check>)
    requires forall i :: 0 <= i < |cs| ==> cs[i].failed
    ensures Failures(cs) == Messages(cs)
    decreases |cs|
  {
    if cs != [] {
      assert forall i :: 0 <= i < |cs[1..]| ==> cs[1..][i] == cs[i + 1];
      FailuresAllFailed(cs[1..]);
      assert Messages(cs) == [cs[0].message] + Messages(cs[1..]);
    }
  }

  /** The submission passes validation exactly when name, number and message
      are non-empty and the email is non-empty and accepted by the validator. */
  lemma NoErrorsIff(s: Submission, validEmail: string -> bool)
    ensures ValidationErrors(s, validEmail) == [] <==>
      !IsEmpty(s.name) && !IsEmpty(s.email) && validEmail(s.email.value) &&
      !IsEmpty(s.number) && !IsEmpty(s.message)
  {
    var cs := RequiredChecks(s, validEmail);
    FailuresEmptyIff(cs);
    if ValidationErrors(s, validEmail) != [] {
      var i :| 0 <= i < |cs| && cs[i].failed;
      assert i == 0 || i == 1 || i == 2 || i == 3;
    } else {
      assert !cs[0].failed && !cs[1].failed && !cs[2].failed && !cs[3].failed;
    }
  }

  /** Each check reports its message exactly when that check fails. */
  lemma ErrorReportedIff(s: Submission, validEmail: string -> bool)
    ensures NameRequired in ValidationErrors(s, validEmail) <==> IsEmpty(s.name)
    ensures EmailRequired in ValidationErrors(s, validEmail) <==> EmailRejected(s.email, validEmail)
    ensures NumberRequired in ValidationErrors(s, validEmail) <==> IsEmpty(s.number)
    ensures MessageRequired in ValidationErrors(s, validEmail) <==> IsEmpty(s.message)
  {
    var cs := RequiredChecks(s, validEmail);
    FailuresMember(cs, NameRequired);
    FailuresMember(cs, EmailRequired);
    FailuresMember(cs, NumberRequired);
    FailuresMember(cs, MessageRequired);
    assert cs[0].message == NameRequired && cs[1].message == EmailRequired;
    assert cs[2].message == NumberRequired && cs[3].message == MessageRequired;
  }

  /** Errors appear in the fixed order Name, Email, Phone number, Message. */
  lemma ErrorsInFixedOrder(s: Submission, validEmail: string -> bool)
    ensures IsSubsequence(ValidationErrors(s, validEmail), AllErrors)
  {
    var cs := RequiredChecks(s, validEmail);
    FailuresInOrder(cs);
    assert Messages(cs) == AllErrors;
  }

  /** Validation never stops early: four failing fields give four errors. */
  lemma AllChecksReport(s: Submission, validEmail: string -> bool)
    requires IsEmpty(s.name) && IsEmpty(s.email) && IsEmpty(s.number) && IsEmpty(s.message)
    ensures ValidationErrors(s, validEmail) == AllErrors
  {
    var cs := RequiredChecks(s, validEmail);
    FailuresAllFailed(cs);
    assert Messages(cs) == AllErrors;
  }

  /** A request that lacks a required field is told that field is required. */
  lemma MissingFieldsReported(post: PostData, filters: Filters)
    ensures "name" !in post ==> NameRequired in ValidationErrors(ReadSubmission(post, filters), filters.validEmail)
    ensures "email" !in post ==> EmailRequired in ValidationErrors(ReadSubmission(post, filters), filters.validEmail)
    ensures "number" !in post ==> NumberRequired in ValidationErrors(ReadSubmission(post, filters), filters.validEmail)
    ensures "message" !in post ==> MessageRequired in ValidationErrors(ReadSubmission(post, filters), filters.validEmail)
  {
    ErrorReportedIff(ReadSubmission(post, filters), filters.validEmail);
  }

  // ---------------------------------------------------------------------
  // The notification

  /** The optional labelled lines: Service before Subject, each present only
      when its value is non-empty. */
  function OptionalLines(s: Submission): seq<string> {
    (if !IsEmpty(Some(s.service)) then ["Service: " + s.service] else []) +
    (if !IsEmpty(Some(s.subjectField)) then ["Subject: " + s.subjectField] else [])
  }

  /** The lines of the notification body, as a reader of the mail sees them
      when no value contains a line break. */
  function BodyLines(s: Submission): seq<string> {
    [BodyTitle, "",
     "Name: " + Text(s.name),
     "Email: " + Text(s.email),
     "Phone Number: " + Text(s.number)] +
    OptionalLines(s) +
    ["Message:", Text(s.message), ""]
  }

  /** Builds the body piece by piece, each piece ending in a newline. */
  method BuildContent(s: Submission) returns (content: string)
    ensures content == Join(BodyLines(s), "\n")
  {
    ghost var lines: seq<string> := [BodyTitle, ""];
    content := BodyTitle + "\n\n";
    TitleSpelled();
    AppendLine(lines, content, "Name: " + Text(s.name));
    content := content + ("Name: " + Text(s.name) + "\n");
    lines := lines + ["Name: " + Text(s.name)];
    AppendLine(lines, content, "Email: " + Text(s.email));
    content := content + ("Email: " + Text(s.email) + "\n");
    lines := lines + ["Email: " + Text(s.email)];
    AppendLine(lines, content, "Phone Number: " + Text(s.number));
    content := content + ("Phone Number: " + Text(s.number) + "\n");
    lines := lines + ["Phone Number: " + Text(s.number)];
    ghost var head := lines;
    ghost var opt: seq<string> := [];
    if !IsEmpty(Some(s.service)) {
      AppendLine(lines, content, "Service: " + s.service);
      content := content + ("Service: " + s.service + "\n");
      lines, opt := lines + ["Service: " + s.service], opt + ["Service: " + s.service];
    }
    if !IsEmpty(Some(s.subjectField)) {
      AppendLine(lines, content, "Subject: " + s.subjectField);
      content := content + ("Subject: " + s.subjectField + "\n");
      lines, opt := lines + ["Subject: " + s.subjectField], opt + ["Subject: " + s.subjectField];
    }
    AppendMessage(lines, content, Text(s.message));
    content := content + ("Message:\n" + Text(s.message) + "\n");
    BodyLinesFrom(s, head, opt, lines);
  }

  /** The lines the method has spelled out, closed by the final empty line,
      are the body's lines. */
  lemma BodyLinesFrom(s: Submission, head: seq<string>, opt: seq<string>, lines: seq<string>)
    requires head == [BodyTitle, "", "Name: " + Text(s.name), "Email: " + Text(s.email),
                      "Phone Number: " + Text(s.number)]
    requires opt == OptionalLines(s) && lines == head + opt
    ensures Terminated(lines + ["Message:", Text(s.message)]) == Join(BodyLines(s), "\n")
  {
    JoinEmptyLast(lines + ["Message:", Text(s.message)]);
    assert lines + ["Message:", Text(s.message)] + [""] == BodyLines(s);
  }

  /** The text of lines each followed by a newline. */
  function Terminated(lines: seq<string>): string
    decreases |lines|
  {
    if lines == [] then "" else lines[0] + "\n" + Terminated(lines[1..])
  }

  /** `text` is exactly `lines`, each followed by a newline. */
  ghost predicate Spells(text: string, lines: seq<string>) {
    text == Terminated(lines)
  }

  /** The first `$email_content` assignment spells the title and a blank line. */
  lemma TitleSpelled()
    ensures Spells(BodyTitle + "\n\n", [BodyTitle, ""])
  {
    AppendLine([], "", BodyTitle);
    AppendLine([BodyTitle], BodyTitle + "\n", "");
  }

  /** The last `.=` step adds two lines: "Message:" and the message. */
  lemma AppendMessage(lines: seq<string>, text: string, m: string)
    requires Spells(text, lines)
    ensures Spells(text + ("Message:\n" + m + "\n"), lines + ["Message:", m])
  {
    AppendLine(lines, text, "Message:");
    AppendLine(lines + ["Message:"], text + "Message:\n", m);
    assert lines + ["Message:"] + [m] == lines + ["Message:", m];
    assert text + "Message:\n" + (m + "\n") == text + ("Message:\n" + m + "\n");
  }

  /** One `.=` step: appending a line and its newline to the text of `lines`. */
  lemma AppendLine(lines: seq<string>, text: string, x: string)
    requires Spells(text, lines)
    ensures Spells(text + (x + "\n"), lines + [x])
  {
    TerminatedAppend(lines, [x]);
    assert [x][1..] == [];
  }

  lemma {:induction false} TerminatedAppend(a: seq<string>, b: seq<string>)
    ensures Terminated(a + b) == Terminated(a) + Terminated(b)
    decreases |a|
  {
    if a == [] {
      assert a + b == b;
    } else {
      assert (a + b)[1..] == a[1..] + b;
      TerminatedAppend(a[1..], b);
    }
  }

  /** A final empty line turns newline-terminated lines into newline-joined ones. */
  lemma {:induction false} JoinEmptyLast(lines: seq<string>)
    ensures Join(lines + [""], "\n") == Terminated(lines)
    decreases |lines|
  {
    if lines == [] {
      assert lines + [""] == [""];
    } else {
      assert (lines + [""])[1..] == lines[1..] + [""];
      JoinEmptyLast(lines[1..]);
    }
  }

  /** No value shown in the body contains a line break. */
  predicate SingleLineValues(s: Submission) {
    FreeOf(Text(s.name), '\n') && FreeOf(Text(s.email), '\n') &&
    FreeOf(Text(s.number), '\n') && FreeOf(s.service, '\n') &&
    FreeOf(s.subjectField, '\n') && FreeOf(Text(s.message), '\n')
  }

  /** A reader splitting the body at newlines gets back exactly the labelled
      lines: the title, a blank line, Name, Email, Phone Number, the optional
      Service and Subject lines, "Message:", the message and a final empty line. */
  lemma BodyReadsBack(s: Submission)
    requires SingleLineValues(s)
    ensures Split(Join(BodyLines(s), "\n"), "\n") == BodyLines(s)
  {
    var lines := BodyLines(s);
    forall i | 0 <= i < |lines| ensures FreeOf(lines[i], "\n"[0]) {
      assert FreeOf(BodyTitle, '\n');
      assert FreeOf("Name: ", '\n') && FreeOf("Email: ", '\n') && FreeOf("Phone Number: ", '\n');
      assert FreeOf("Service: ", '\n') && FreeOf("Subject: ", '\n') && FreeOf("Message:", '\n');
      FreeOfConcat("Name: ", Text(s.name), '\n');
      FreeOfConcat("Email: ", Text(s.email), '\n');
      FreeOfConcat("Phone Number: ", Text(s.number), '\n');
      FreeOfConcat("Service: ", s.service, '\n');
      FreeOfConcat("Subject: ", s.subjectField, '\n');
    }
    SplitJoin(lines, "\n");
  }

  /** The body opens with the title, a blank line and the Name, Email and
      Phone Number lines, and closes with "Message:", the message and a
      newline; between them come only the optional lines. */
  lemma BodyFrame(s: Submission)
    ensures Join(BodyLines(s), "\n") ==
      BodyTitle + "\n\n" +
      ("Name: " + Text(s.name) + "\n") +
      ("Email: " + Text(s.email) + "\n") +
      ("Phone Number: " + Text(s.number) + "\n") +
      Terminated(OptionalLines(s)) +
      ("Message:\n" + Text(s.message) + "\n")
  {
    var name, email, number := "Name: " + Text(s.name), "Email: " + Text(s.email), "Phone Number: " + Text(s.number);
    var h0 := BodyTitle + "\n\n";
    TitleSpelled();
    AppendLine([BodyTitle, ""], h0, name);
    assert [BodyTitle, ""] + [name] == [BodyTitle, "", name];
    var h1 := h0 + (name + "\n");
    AppendLine([BodyTitle, "", name], h1, email);
    assert [BodyTitle, "", name] + [email] == [BodyTitle, "", name, email];
    var h2 := h1 + (email + "\n");
    AppendLine([BodyTitle, "", name, email], h2, number);
    var head := [BodyTitle, "", name, email, number];
    var headText := h2 + (number + "\n");
    assert [BodyTitle, "", name, email] + [number] == head;
    var m := "Message:\n" + Text(s.message) + "\n";
    var tail := ["Message:", Text(s.message)];
    assert Spells(m, tail) by {
      AppendLine([], "", "Message:");
      AppendLine(["Message:"], "Message:\n", Text(s.message));
      assert "" + ("Message:" + "\n") == "Message:\n";
      assert ["Message:"] + [Text(s.message)] == tail;
    }
    assert BodyLines(s) == (head + OptionalLines(s) + tail) + [""];
    JoinEmptyLast(head + OptionalLines(s) + tail);
    TerminatedAppend(head + OptionalLines(s), tail);
    TerminatedAppend(head, OptionalLines(s));
  }

  /** An optional field the request lacks adds no line to the body. */
  lemma AbsentOptionalFieldsAddNoLine(post: PostData, filters: Filters)
    ensures "service" !in post ==>
      forall line :: line in OptionalLines(ReadSubmission(post, filters)) ==> !("Service: " <= line)
    ensures "subject" !in post ==>
      forall line :: line in OptionalLines(ReadSubmission(post, filters)) ==> !("Subject: " <= line)
  {
    var s := ReadSubmission(post, filters);
    if "service" !in post {
      assert OptionalLines(s) == (if !IsEmpty(Some(s.subjectField)) then ["Subject: " + s.subjectField] else []);
      forall line | line in OptionalLines(s) ensures !("Service: " <= line) {
        assert line[2] == 'b';
      }
    }
    if "subject" !in post {
      assert OptionalLines(s) == (if !IsEmpty(Some(s.service)) then ["Service: " + s.service] else []);
      forall line | line in OptionalLines(s) ensures !("Subject: " <= line) {
        assert line[2] == 'r';
      }
    }
  }

  /** How many lines the body has, and where the optional ones sit: Service
      right after Phone Number, Subject after Service when both are present. */
  lemma BodyLayout(s: Submission)
    ensures |BodyLines(s)| ==
      8 + (if IsEmpty(Some(s.service)) then 0 else 1) + (if IsEmpty(Some(s.subjectField)) then 0 else 1)
    ensures !IsEmpty(Some(s.service)) ==> BodyLines(s)[5] == "Service: " + s.service
    ensures !IsEmpty(Some(s.subjectField)) ==>
      BodyLines(s)[if IsEmpty(Some(s.service)) then 5 else 6] == "Subject: " + s.subjectField
    ensures BodyLines(s)[|BodyLines(s)| - 3] == "Message:"
  {
  }

  /** The three header lines: sender, reply address, mailer. */
  function HeaderLines(email: Option<string>, phpVersion: string): seq<string> {
    ["From: " + Sender, "Reply-To: " + Text(email), "X-Mailer: PHP/" + phpVersion]
  }

  /** Builds the header block piece by piece, lines separated by CRLF. */
  method BuildHeaders(email: Option<string>, phpVersion: string) returns (headers: string)
    ensures headers == Join(HeaderLines(email, phpVersion), "\r\n")
  {
    headers := "From: " + Sender + "\r\n";
    headers := headers + "Reply-To: " + Text(email) + "\r\n";
    headers := headers + "X-Mailer: PHP/" + phpVersion;
    var lines := HeaderLines(email, phpVersion);
    assert Join(lines[1..][1..], "\r\n") == lines[2];
  }

  /** With no carriage return and no line feed in the reply address or the
      version, the header block holds exactly the three intended headers, and
      every line break in it is one of the two CRLF separators: nothing
      submitted can start another header, whether the mailer breaks lines at
      CRLF or at a bare LF. */
  lemma HeadersCannotBeInjected(email: Option<string>, phpVersion: string)
    requires FreeOf(Text(email), '\r') && FreeOf(phpVersion, '\r')
    requires FreeOf(Text(email), '\n') && FreeOf(phpVersion, '\n')
    ensures Split(Join(HeaderLines(email, phpVersion), "\r\n"), "\r\n") ==
      ["From: " + Sender, "Reply-To: " + Text(email), "X-Mailer: PHP/" + phpVersion]
    ensures CrlfOnly(Join(HeaderLines(email, phpVersion), "\r\n"))
    ensures |Split(Join(HeaderLines(email, phpVersion), "\r\n"), "\n")| == 3
  {
    var lines := HeaderLines(email, phpVersion);
    HeaderLinesPlain(email, phpVersion);
    SplitJoin(lines, "\r\n");
    JoinCrlfOnly(lines);
    ThreeLinesAtLf(lines[0], lines[1], lines[2]);
  }

  /** No header line holds a line break of its own. */
  lemma HeaderLinesPlain(email: Option<string>, phpVersion: string)
    requires FreeOf(Text(email), '\r') && FreeOf(phpVersion, '\r')
    requires FreeOf(Text(email), '\n') && FreeOf(phpVersion, '\n')
    ensures forall i :: 0 <= i < 3 ==>
      FreeOf(HeaderLines(email, phpVersion)[i], '\r') && FreeOf(HeaderLines(email, phpVersion)[i], '\n')
  {
  }

  /** Three plain lines joined with CRLF still come apart into three when cut
      at bare line feeds. */
  lemma ThreeLinesAtLf(a: string, b: string, c: string)
    requires FreeOf(a, '\n') && FreeOf(b, '\n') && FreeOf(c, '\n')
    ensures |Split(Join([a, b, c], "\r\n"), "\n")| == 3
  {
    var crs := [a + "\r", b + "\r", c];
    FreeOfConcat(a, "\r", '\n');
    FreeOfConcat(b, "\r", '\n');
    assert Join(crs[1..][1..], "\n") == c && Join([a, b, c][1..][1..], "\r\n") == c;
    assert Join(crs, "\n") == Join([a, b, c], "\r\n");
    SplitJoin(crs, "\n");
  }

  // ---------------------------------------------------------------------
  // The request as a whole

  /** The status the handler puts in the redirect's query string. */
  datatype Status = Success | Error | ValidationError

  function StatusParam(st: Status): string {
    match st
    case Success => "success"
    case Error => "error"
    case ValidationError => "validation_error"
  }

  /** One call of the mail transport. */
  datatype MailCall = MailCall(to: string, subject: string, body: string, headers: string)

  /** What one request does: the `Location` it redirects to, which mail it hands to the
      transport (if any), and which errors it leaves in the session (if any). */
  datatype Response = Response(location: string, mail: Option<MailCall>, sessionErrors: Option<seq<string>>) {
    predicate MailAttempted() { mail.Some? }
  }

  /** The redirect target `Location` header. */
  function Location(status: Option<Status>): string {
    match status
    case None => ContactPage
    case Some(st) => ContactPage + "?status=" + StatusParam(st)
  }

  /** The whole request. A non-POST request is redirected without a status;
      a POST is read and validated; with errors it stores them in the session
      and redirects with `validation_error` without mailing; without errors it
      calls the transport exactly once and reports `success` or `error` by the
      transport's answer. */
  method HandleRequest(requestMethod: string, post: PostData, filters: Filters,
                       phpVersion: string, transport: MailCall -> bool)
    returns (r: Response)
    ensures requestMethod != "POST" ==> r == Response(Location(None), None, None)
    ensures requestMethod == "POST" ==>
      var s := ReadSubmission(post, filters);
      var errors := ValidationErrors(s, filters.validEmail);
      (errors != [] ==> r == Response(Location(Some(ValidationError)), None, Some(errors))) &&
      (errors == [] ==>
        r.mail == Some(MailCall(Recipient, MailSubject,
                                Join(BodyLines(s), "\n"),
                                Join(HeaderLines(s.email, phpVersion), "\r\n"))) &&
        r.location == Location(Some(if transport(r.mail.value) then Success else Error)) &&
        r.sessionErrors == None)
    ensures r.MailAttempted() ==> r.mail.value.to == Recipient && r.mail.value.subject == MailSubject
    ensures r.location == Location(Some(Success)) <==> r.MailAttempted() && transport(r.mail.value)
  {
    if requestMethod == "POST" {
      var s := ReadSubmission(post, filters);
      var errors := Validate(s, filters.validEmail);
      if errors == [] {
        var content := BuildContent(s);
        var headers := BuildHeaders(s.email, phpVersion);
        var call := MailCall(Recipient, MailSubject, content, headers);
        if transport(call) {
          r := Response(Location(Some(Success)), Some(call), None);
        } else {
          r := Response(Location(Some(Error)), Some(call), None);
        }
      } else {
        r := Response(Location(Some(ValidationError)), None, Some(errors));
      }
    } else {
      r := Response(Location(None), None, None);
    }
  }

  /** The mail subject is the fixed constant whatever the form's `subject`
      field holds; that field only reaches the body's Subject line. */
  lemma SubjectFieldOnlyInBody(post: PostData, filters: Filters, v: string)
    ensures ReadSubmission(post[("subject") := v], filters).subjectField == filters.sanitizeString(v)
    ensures ReadSubmission(post[("subject") := v], filters).name == ReadSubmission(post, filters).name
    ensures ReadSubmission(post[("subject") := v], filters).email == ReadSubmission(post, filters).email
    ensures ReadSubmission(post[("subject") := v], filters).number == ReadSubmission(post, filters).number
    ensures ReadSubmission(post[("subject") := v], filters).message == ReadSubmission(post, filters).message
    ensures ReadSubmission(post[("subject") := v], filters).service == ReadSubmission(post, filters).service
  {
  }
}
