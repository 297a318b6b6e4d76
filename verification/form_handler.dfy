/** The contact form's client-side helpers: the filter applied to the phone
    input on every keystroke, the table that turns a status into the message
    and style shown above the form, and the reading of that status out of a
    reply with `URLSearchParams`. */
module FormHandler {
  import opened Wrappers
  import opened Strings

  // ---------------------------------------------------------------------
  // Phone input filter

  /** The longest phone value the input keeps. */
  const MaxPhoneLength := 20

  /** ECMAScript's `\s`: the WhiteSpace and LineTerminator code points. */
  predicate IsJsWhitespace(c: char) {
    c == '\t' || c == '\U{000B}' || c == '\U{000C}' || c == ' ' ||
    c == '\U{00A0}' || c == '\U{FEFF}' || c == '\U{1680}' ||
    ('\U{2000}' <= c <= '\U{200A}') ||
    c == '\U{202F}' || c == '\U{205F}' || c == '\U{3000}' ||
    c == '\n' || c == '\r' || c == '\U{2028}' || c == '\U{2029}'
  }

  /** The characters the phone filter keeps: `\d`, `\s`, `+`, `(`, `)`, `-`. */
  predicate IsPhoneChar(c: char) {
    ('0' <= c <= '9') || IsJsWhitespace(c) || c == '+' || c == '(' || c == ')' || c == '-'
  }

  predicate AllPhoneChars(s: string) {
    forall i :: 0 <= i < |s| ==> IsPhoneChar(s[i])
  }

  /** `value.replace(/[^\d\s+()-]/g, '')`: every character outside the
      phone class is deleted. */
  function RemoveDisallowed(s: string): (r: string)
    ensures |r| <= |s|
    ensures AllPhoneChars(r)
    decreases |s|
  {
    if s == [] then []
    else if IsPhoneChar(s[0]) then [s[0]] + RemoveDisallowed(s[1..])
    else RemoveDisallowed(s[1..])
  }

  /** `value.substring(0, n)` when the value is longer than `n`. */
  function Truncate(s: string, n: nat): string {
    if |s| > n then s[..n] else s
  }

  /** The value the phone input holds after an `input` event. */
  function FormatPhone(value: string): (r: string)
    ensures |r| <= MaxPhoneLength
    ensures AllPhoneChars(r)
    ensures r <= RemoveDisallowed(value)
    ensures |r| == if |RemoveDisallowed(value)| > MaxPhoneLength then MaxPhoneLength else |RemoveDisallowed(value)|
  {
    Truncate(RemoveDisallowed(value), MaxPhoneLength)
  }

  /** The filter only deletes: what is left keeps the input's order. */
  lemma {:induction false} RemoveDisallowedIsSubsequence(s: string)
    ensures IsSubsequence(RemoveDisallowed(s), s)
    decreases |s|
  {
    if s != [] {
      RemoveDisallowedIsSubsequence(s[1..]);
      var r := RemoveDisallowed(s);
      if IsPhoneChar(s[0]) {
        assert r[0] == s[0] && r[1..] == RemoveDisallowed(s[1..]);
      }
    }
  }

  /** Every allowed character survives as often as it occurred; every other
      character is gone. */
  lemma {:induction false} RemoveDisallowedCounts(s: string)
    ensures forall c :: multiset(RemoveDisallowed(s))[c] == if IsPhoneChar(c) then multiset(s)[c] else 0
    decreases |s|
  {
    if s != [] {
      RemoveDisallowedCounts(s[1..]);
      assert s == [s[0]] + s[1..];
      assert multiset(s) == multiset([s[0]]) + multiset(s[1..]);
      if IsPhoneChar(s[0]) {
        assert multiset(RemoveDisallowed(s)) == multiset([s[0]]) + multiset(RemoveDisallowed(s[1..]));
      }
    }
  }

  /** A value made only of allowed characters passes the filter unchanged. */
  lemma {:induction false} RemoveDisallowedKeepsAllowed(s: string)
    requires AllPhoneChars(s)
    ensures RemoveDisallowed(s) == s
    decreases |s|
  {
    if s != [] {
      assert AllPhoneChars(s[1..]) by {
        forall i | 0 <= i < |s[1..]| ensures IsPhoneChar(s[1..][i]) {
          assert s[1..][i] == s[i + 1];
        }
      }
      RemoveDisallowedKeepsAllowed(s[1..]);
      assert IsPhoneChar(s[0]);
      assert s == [s[0]] + s[1..];
    }
  }

  /** Nothing is inserted or reordered: the result is a subsequence of the input. */
  lemma FormatPhoneIsSubsequence(value: string)
    ensures IsSubsequence(FormatPhone(value), value)
  {
    RemoveDisallowedIsSubsequence(value);
    PrefixOfSubsequence(FormatPhone(value), RemoveDisallowed(value), value);
  }

  /** Filtering a filtered value changes nothing. */
  lemma FormatPhoneIdempotent(value: string)
    ensures FormatPhone(FormatPhone(value)) == FormatPhone(value)
  {
    RemoveDisallowedKeepsAllowed(FormatPhone(value));
  }

  /** The values the filter leaves alone are exactly those of at most twenty
      allowed characters. */
  lemma FormatPhoneFixedPointIff(value: string)
    ensures FormatPhone(value) == value <==> AllPhoneChars(value) && |value| <= MaxPhoneLength
  {
    if AllPhoneChars(value) && |value| <= MaxPhoneLength {
      RemoveDisallowedKeepsAllowed(value);
    }
  }

  // ---------------------------------------------------------------------
  // Status display

  const SuccessMessage := "Thank you! Your message has been sent."
  const InvalidTokenMessage := "Security validation failed. Please refresh the page and try again."
  const RateLimitMessage := "Too many attempts. Please try again later."
  const ValidationMessage := "Please check your inputs and try again."
  const GenericErrorMessage := "An error occurred. Please try again later."

  const SuccessClass := "alert alert-success"
  const WarningClass := "alert alert-warning"
  const DangerClass := "alert alert-danger"

  /** What the form shows for a reply, and whether it resets the form. */
  datatype Alert = Alert(message: string, className: string, resetsForm: bool)

  /** The statuses with a dedicated entry in the table. */
  predicate IsKnownStatus(status: Option<string>) {
    status == Some("success") || status == Some("invalid_token") ||
    status == Some("rate_limit") || status == Some("validation_error")
  }

  /** The `switch` on the `status` query parameter; `None` stands for a
      missing parameter. */
  function StatusAlert(status: Option<string>): (a: Alert)
    ensures a.className == SuccessClass <==> status == Some("success")
    ensures a.resetsForm <==> status == Some("success")
    ensures a.className == WarningClass <==> status == Some("rate_limit")
    ensures a.className == DangerClass <==> status != Some("success") && status != Some("rate_limit")
    ensures status == Some("success") ==> a.message == SuccessMessage
    ensures status == Some("invalid_token") ==> a.message == InvalidTokenMessage
    ensures status == Some("rate_limit") ==> a.message == RateLimitMessage
    ensures status == Some("validation_error") ==> a.message == ValidationMessage
    ensures !IsKnownStatus(status) ==> a == Alert(GenericErrorMessage, DangerClass, false)
  {
    match status
    case Some("success") => Alert(SuccessMessage, SuccessClass, true)
    case Some("invalid_token") => Alert(InvalidTokenMessage, DangerClass, false)
    case Some("rate_limit") => Alert(RateLimitMessage, WarningClass, false)
    case Some("validation_error") => Alert(ValidationMessage, DangerClass, false)
    case _ => Alert(GenericErrorMessage, DangerClass, false)
  }

  // ---------------------------------------------------------------------
  // Reading the status out of a reply

  /** `URLSearchParams.get(key)` over the `&`-separated pieces of a query:
      the value after the first `=` of the first piece whose name is `key`,
      or `None` when no piece has that name. */
  function FirstNamed(pieces: seq<string>, key: string): (r: Option<string>)
    ensures r.Some? <==> exists i :: 0 <= i < |pieces| && Before(pieces[i], '=') == key
    ensures r.Some? ==>
      exists i :: 0 <= i < |pieces| && Before(pieces[i], '=') == key && r.value == After(pieces[i], '=') &&
                  forall j :: 0 <= j < i ==> Before(pieces[j], '=') != key
    decreases |pieces|
  {
    if pieces == [] then None
    else if Before(pieces[0], '=') == key then Some(After(pieces[0], '='))
    else
      var r := FirstNamed(pieces[1..], key);
      assert forall i :: 0 < i < |pieces| ==> pieces[i] == pieces[1..][i - 1];
      r
  }

  /** `new URLSearchParams(text).get(key)`: a leading `?` is dropped and the
      rest is cut at every `&`. */
  function QueryParam(text: string, key: string): Option<string> {
    var query := if text != [] && text[0] == '?' then text[1..] else text;
    FirstNamed(Split(query, "&"), key)
  }

  /** The status as the script reads it: the reply's body text parsed as a
      query string. */
  function StatusFromReplyText(text: string): Option<string> {
    QueryParam(text, "status")
  }

  /** The status carried by the query of the URL the reply came from
      (`new URL(response.url).searchParams.get('status')`). */
  function StatusFromUrl(url: string): Option<string> {
    FirstNamed(Split(After(url, '?'), "&"), "status")
  }
}
