/** How the two halves meet: the redirect target the handler writes and the
    alert the form script shows for the reply it receives. `fetch` follows the
    handler's redirect, so the reply's URL is the redirect target resolved
    against the page's directory, and the reply's body is the contact page. */
module StatusContract {
  import opened Wrappers
  import opened Strings
  import SendEmail
  import FormHandler

  /** The status the script would find in the redirect target, once resolved
      against any base (scheme, host and directory) without a `?`. */
  function TargetStatus(status: Option<SendEmail.Status>): Option<string> {
    match status
    case None => None
    case Some(st) => Some(SendEmail.StatusParam(st))
  }

  /** Every redirect target the handler writes reads back, from the URL, to
      the status it carries; the bare target reads back to no status. */
  lemma TargetsReadBack(base: string, status: Option<SendEmail.Status>)
    requires FreeOf(base, '?')
    ensures FormHandler.StatusFromUrl(base + SendEmail.Location(status)) == TargetStatus(status)
  {
    ContactPagePlain(base);
    match status
    case None =>
      CutWithout(base + SendEmail.ContactPage, '?');
      assert Split("", "&") == [""];
    case Some(st) =>
      var query := "status=" + SendEmail.StatusParam(st);
      assert base + SendEmail.Location(status) == (base + SendEmail.ContactPage) + ['?'] + query;
      CutAtFirst(base + SendEmail.ContactPage, '?', query);
      StatusQueryReadsBack(st);
  }

  /** The resolved page path holds no `?` of its own. */
  lemma ContactPagePlain(base: string)
    requires FreeOf(base, '?')
    ensures FreeOf(base + SendEmail.ContactPage, '?')
  {
  }

  /** The query the handler writes holds one piece, named `status`. */
  lemma StatusQueryReadsBack(st: SendEmail.Status)
    ensures FirstNamedStatus("status=" + SendEmail.StatusParam(st)) == Some(SendEmail.StatusParam(st))
  {
    var param := SendEmail.StatusParam(st);
    var query := "status=" + param;
    assert FreeOf(query, '&');
    SplitNoSeparator(query, "&");
    assert query == "status" + ['='] + param;
    CutAtFirst("status", '=', param);
  }

  /** The `status` parameter of a query written without its leading `?`. */
  function FirstNamedStatus(query: string): Option<string> {
    FormHandler.FirstNamed(Split(query, "&"), "status")
  }

  /** The reply's body is the contact page's HTML: it opens with `<` and,
      when it holds no `&`, parses as a single query piece whose name starts
      with `<`. The script then finds no status, shows the generic danger
      alert and never resets the form, whatever the handler reported. */
  lemma PageReplyShowsGenericError(page: string)
    requires page != [] && page[0] == '<' && FreeOf(page, '&')
    ensures FormHandler.StatusFromReplyText(page) == None
    ensures FormHandler.StatusAlert(FormHandler.StatusFromReplyText(page)) ==
      FormHandler.Alert(FormHandler.GenericErrorMessage, FormHandler.DangerClass, false)
  {
    SplitNoSeparator(page, "&");
    assert Before(page, '=')[0] == '<';
  }

  /** Read from the reply's URL, each status the handler can report shows
      its alert: success thanks the user and resets the form, a failed send
      falls to the table's generic danger entry, a validation failure asks to
      check the inputs. No handler status reaches the token or rate-limit
      entries. */
  lemma HandlerStatusesShown(base: string, st: SendEmail.Status)
    requires FreeOf(base, '?')
    ensures var a := FormHandler.StatusAlert(FormHandler.StatusFromUrl(base + SendEmail.Location(Some(st))));
      match st
      case Success => a == FormHandler.Alert(FormHandler.SuccessMessage, FormHandler.SuccessClass, true)
      case Error => a == FormHandler.Alert(FormHandler.GenericErrorMessage, FormHandler.DangerClass, false)
      case ValidationError => a == FormHandler.Alert(FormHandler.ValidationMessage, FormHandler.DangerClass, false)
    ensures SendEmail.StatusParam(st) != "invalid_token" && SendEmail.StatusParam(st) != "rate_limit"
  {
    TargetsReadBack(base, Some(st));
  }

  /** Read from the reply's URL, the form resets exactly when the handler
      reported a delivered mail. */
  lemma ResetOnlyOnSuccess(base: string, status: Option<SendEmail.Status>)
    requires FreeOf(base, '?')
    ensures FormHandler.StatusAlert(FormHandler.StatusFromUrl(base + SendEmail.Location(status))).resetsForm
      <==> status == Some(SendEmail.Success)
  {
    TargetsReadBack(base, status);
  }
}
