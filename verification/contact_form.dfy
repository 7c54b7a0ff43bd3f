/**
 * The contact-form controller of `initContactForm` (src/main.js): the
 * honeypot, required-field and e-mail checks, the outcome classification of
 * the response, and the submit handler that locks the form, posts once and
 * always unlocks it again.
 */
module ContactForm {
  import opened Lookup
  import opened ContactApi

  // ---------------------------------------------------------------------
  // The e-mail pattern /^[^\s@]+@[^\s@]+\.[^\s@]+$/
  // ---------------------------------------------------------------------

  /** JavaScript's `\s`: the ECMAScript WhiteSpace and LineTerminator code points. */
  predicate IsWhitespace(c: char)
  {
    var n := c as int;
    n == 0x09 || n == 0x0A || n == 0x0B || n == 0x0C || n == 0x0D || n == 0x20 ||
    n == 0xA0 || n == 0x1680 || (0x2000 <= n <= 0x200A) || n == 0x2028 || n == 0x2029 ||
    n == 0x202F || n == 0x205F || n == 0x3000 || n == 0xFEFF
  }

  /** The class `[^\s@]`. */
  predicate IsRunChar(c: char)
  {
    !IsWhitespace(c) && c != '@'
  }

  predicate AllRunChars(s: string)
  {
    forall k | 0 <= k < |s| :: IsRunChar(s[k])
  }

  /** `[^\s@]+`: a non-empty run of the class. */
  predicate IsRun(s: string)
  {
    |s| > 0 && AllRunChars(s)
  }

  /**
   * What the regular expression accepts: the whole string splits into a
   * run, "@", a run, ".", a run. The runs may themselves contain ".", so the
   * "." may be any one after the "@" that leaves a run on each side.
   */
  ghost predicate MatchesEmailPattern(s: string)
  {
    exists i, j | 0 <= i < j < |s| ::
      s[i] == '@' && s[j] == '.' && IsRun(s[..i]) && IsRun(s[i + 1..j]) && IsRun(s[j + 1..])
  }

  /** Some "." with at least one character before it and one after it. */
  predicate HasInnerDot(d: string)
  {
    exists j | 1 <= j < |d| - 1 :: d[j] == '.'
  }

  /**
   * `emailRegex.test(email)` as a single scan: the first "@" has a run
   * before it, and what follows it is free of "@" and whitespace and has an
   * inner ".".
   */
  function IsValidEmail(email: string): bool
  {
    match FirstIndex(email, '@')
    case None => false
    case Some(i) => 0 < i && AllRunChars(email[..i]) && AllRunChars(email[i + 1..]) && HasInnerDot(email[i + 1..])
  }

  /** The scan accepts exactly the strings the regular expression matches. */
  lemma IsValidEmailMatchesPattern(email: string)
    ensures IsValidEmail(email) <==> MatchesEmailPattern(email)
  {
    if IsValidEmail(email) {
      ScanImpliesPattern(email);
    }
    if MatchesEmailPattern(email) {
      var i, j :| 0 <= i < j < |email| && email[i] == '@' && email[j] == '.' &&
        IsRun(email[..i]) && IsRun(email[i + 1..j]) && IsRun(email[j + 1..]);
      PatternImpliesScan(email, i, j);
    }
  }

  lemma ScanImpliesPattern(email: string)
    requires IsValidEmail(email)
    ensures MatchesEmailPattern(email)
  {
    var i := FirstIndex(email, '@').value;
    var d := email[i + 1..];
    var j' :| 1 <= j' < |d| - 1 && d[j'] == '.';
    var j := i + 1 + j';
    assert email[i + 1..j] == d[..j'];
    assert email[j + 1..] == d[j' + 1..];
    assert forall k | 0 <= k < j' :: d[..j'][k] == d[k];
    var tld := d[j' + 1..];
    assert forall k | 0 <= k < |tld| :: tld[k] == d[j' + 1 + k];
    assert email[i] == '@' && email[j] == '.';
    assert IsRun(email[..i]) && IsRun(email[i + 1..j]) && IsRun(email[j + 1..]);
  }

  lemma PatternImpliesScan(email: string, i: nat, j: nat)
    requires i < j < |email| && email[i] == '@' && email[j] == '.'
    requires IsRun(email[..i]) && IsRun(email[i + 1..j]) && IsRun(email[j + 1..])
    ensures IsValidEmail(email)
  {
    FirstAtIs(email, i);
    var d := email[i + 1..];
    assert d[j - i - 1] == '.';
    forall k | 0 <= k < |d| ensures IsRunChar(d[k]) {
      if k < j - i - 1 {
        assert d[k] == email[i + 1..j][k];
      } else if k > j - i - 1 {
        assert d[k] == email[j + 1..][k - (j - i)];
      }
    }
  }

  /** An "@" with no "@" before it is the first one. */
  lemma FirstAtIs(s: string, i: nat)
    requires i < |s| && s[i] == '@' && AllRunChars(s[..i])
    ensures FirstIndex(s, '@') == Some(i)
  {
  }

  /** An address containing any whitespace character is rejected. */
  lemma WhitespaceEmailRejected(email: string, k: nat)
    requires k < |email| && IsWhitespace(email[k])
    ensures !MatchesEmailPattern(email)
  {
  }

  /** Every accepted address has an "@" and a "."; neither may be missing. */
  lemma MissingAtOrDotRejected(email: string)
    requires '@' !in email || '.' !in email
    ensures !MatchesEmailPattern(email)
  {
  }

  /** The part before the "@" may not be empty. */
  lemma LeadingAtRejected(email: string)
    requires |email| > 0 && email[0] == '@'
    ensures !MatchesEmailPattern(email)
  {
  }

  /** The addresses the handler's authors give as rejected, and one with a dotted domain that passes. */
  lemma EmailExamples()
    ensures !MatchesEmailPattern("not-an-email")
    ensures !MatchesEmailPattern("a@b")
    ensures !MatchesEmailPattern("@b.com")
    ensures MatchesEmailPattern("a@b.c.d")
  {
    MissingAtOrDotRejected("not-an-email");
    MissingAtOrDotRejected("a@b");
    LeadingAtRejected("@b.com");
    var e := "a@b.c.d";
    assert e[1] == '@' && e[3] == '.' && IsRun(e[..1]) && IsRun(e[2..3]) && IsRun(e[4..]);
  }

  // ---------------------------------------------------------------------
  // Validation
  // ---------------------------------------------------------------------

  /** The result of the three checks, in the order the handler makes them. */
  datatype Verdict = Drop | MissingFields | BadEmail | Proceed

  const BadEmailText := "Please enter a valid email address."
  const SendingText := "Sending..."
  const ThanksText := "Thanks - we'll be in touch shortly."

  /**
   * The honeypot check wins over the required-field check, which wins over
   * the e-mail check; only a submission passing all three proceeds.
   */
  function Validate(fields: Fields): (v: Verdict)
    ensures v == Drop <==> Filled(fields, "hp")
    ensures v == MissingFields <==> !Filled(fields, "hp") && !RequiredFilled(fields)
    ensures v == BadEmail <==>
      !Filled(fields, "hp") && RequiredFilled(fields) && !MatchesEmailPattern(fields["email"])
    ensures v == Proceed <==>
      !Filled(fields, "hp") && RequiredFilled(fields) && MatchesEmailPattern(fields["email"])
  {
    if Filled(fields, "hp") then Drop
    else if !RequiredFilled(fields) then MissingFields
    else
      IsValidEmailMatchesPattern(fields["email"]);
      if !IsValidEmail(fields["email"]) then BadEmail
      else Proceed
  }

  /** A non-empty value made only of JavaScript whitespace. */
  predicate Blank(s: string)
  {
    |s| > 0 && forall i | 0 <= i < |s| :: IsWhitespace(s[i])
  }

  /**
   * The required check does not trim: whitespace-only name, email and
   * message pass it, and such an address is then stopped by the e-mail
   * check unless the honeypot dropped the submission first.
   */
  lemma WhitespaceOnlyFieldsPass(fields: Fields)
    requires "name" in fields && Blank(fields["name"])
    requires "email" in fields && Blank(fields["email"])
    requires "message" in fields && Blank(fields["message"])
    ensures RequiredFilled(fields)
    ensures Validate(fields) == (if Filled(fields, "hp") then Drop else BadEmail)
  {
    WhitespaceEmailRejected(fields["email"], 0);
  }

  // ---------------------------------------------------------------------
  // Outcome classification
  // ---------------------------------------------------------------------

  /**
   * `res.ok && payload.ok !== false` decides success; otherwise the
   * server's error text or the generic text; a thrown request (or a throw
   * while reading the payload) is a network failure.
   */
  function Classify(resp: Response): (o: Outcome)
    ensures o.Succeeded? <==>
      resp.Received? && resp.httpOk && PayloadOf(resp.body).Some? && PayloadOf(resp.body).value.ok != False
    ensures o.NetworkFailure? <==> resp.Threw? || resp.body.JsonNull?
    ensures o.Rejected? ==> o.message != ""
    ensures o.Rejected? && resp.body.Json? && resp.body.payload.error.Some? && resp.body.payload.error.value != ""
      ==> o.message == resp.body.payload.error.value
    ensures o.Rejected? && !(resp.body.Json? && resp.body.payload.error.Some? && resp.body.payload.error.value != "")
      ==> o.message == GenericFailureText
  {
    match resp
    case Threw => NetworkFailure
    case Received(httpOk, body) =>
      match PayloadOf(body)
      case None => NetworkFailure
      case Some(p) =>
        if httpOk && p.ok != False then Succeeded
        else Rejected(ErrorOr(p, GenericFailureText))
  }

  /** A payload without `ok` (in particular `{}`) succeeds whenever the HTTP status does. */
  lemma AbsentOkIsSuccess(httpOk: bool, error: Option<string>)
    ensures Classify(Received(httpOk, Json(Payload(Absent, error)))).Succeeded? <==> httpOk
    ensures Classify(Received(httpOk, Unparseable)) ==
      if httpOk then Succeeded else Rejected(GenericFailureText)
  {
  }

  // ---------------------------------------------------------------------
  // The submit handler
  // ---------------------------------------------------------------------

  /**
   * The form, its submit button and its status element, as the handler
   * sees them. `requests` records every `fetch` the handler issues.
   */
  class Controller {
    var fields: Fields
    var statusText: string
    var buttonDisabled: bool
    var submitting: bool
    var requests: seq<Request>
    /** The values `form.reset()` restores (the inputs' default values). */
    const defaults: Fields

    constructor (initialFields: Fields, defaultFields: Fields, initialStatus: string)
      ensures fields == initialFields && defaults == defaultFields && statusText == initialStatus
      ensures !buttonDisabled && !submitting && requests == []
    {
      fields := initialFields;
      defaults := defaultFields;
      statusText := initialStatus;
      buttonDisabled := false;
      submitting := false;
      requests := [];
    }

    /** Writing `statusEl.textContent`. */
    method ShowStatus(text: string)
      modifies this`statusText
      ensures statusText == text
    {
      statusText := text;
    }

    /** Disabling the button, adding `is-submitting` and showing "Sending...". */
    method Lock()
      modifies this`buttonDisabled, this`submitting, this`statusText
      ensures buttonDisabled && submitting && statusText == SendingText
    {
      buttonDisabled := true;
      submitting := true;
      statusText := SendingText;
    }

    /** Issuing the one request, whose body is the extracted field map. */
    method Post(data: Fields)
      modifies this`requests
      ensures requests == old(requests) + [ContactRequest(data)]
    {
      requests := requests + [ContactRequest(data)];
    }

    /** `form.reset()`. */
    method Reset()
      modifies this`fields
      ensures fields == defaults
    {
      fields := defaults;
    }

    /** The `try`/`catch` body after the request: status text, and the reset on success only. */
    method Settle(resp: Response)
      modifies this`statusText, this`fields
      ensures statusText == OutcomeText(Classify(resp), ThanksText)
      ensures fields == if Classify(resp).Succeeded? then defaults else old(fields)
    {
      var outcome := Classify(resp);
      ShowStatus(OutcomeText(outcome, ThanksText));
      if outcome.Succeeded? {
        Reset();
      }
    }

    /** The `finally` block. */
    method Unlock()
      modifies this`buttonDisabled, this`submitting
      ensures !buttonDisabled && !submitting
    {
      buttonDisabled := false;
      submitting := false;
    }

    /**
     * The handler up to the `await`: validation, then (only if it passes)
     * the lock and the request. A dropped submission changes nothing.
     */
    method BeginSubmit() returns (v: Verdict)
      modifies this
      ensures v == Validate(old(fields))
      ensures fields == old(fields)
      ensures v == Drop ==> unchanged(this)
      ensures v == MissingFields || v == BadEmail ==>
        statusText == (if v == MissingFields then MissingFieldsText else BadEmailText) &&
        buttonDisabled == old(buttonDisabled) && submitting == old(submitting) && requests == old(requests)
      ensures v == Proceed ==>
        buttonDisabled && submitting && statusText == SendingText &&
        requests == old(requests) + [ContactRequest(fields)]
    {
      var data := fields;
      v := Validate(data);
      if v == Drop {
        return;
      } else if v == MissingFields {
        ShowStatus(MissingFieldsText);
      } else if v == BadEmail {
        ShowStatus(BadEmailText);
      } else {
        Lock();
        Post(data);
      }
    }

    /** The handler after the `await`: settle on the outcome, then always unlock. */
    method Complete(resp: Response)
      modifies this
      ensures !buttonDisabled && !submitting
      ensures requests == old(requests)
      ensures statusText == OutcomeText(Classify(resp), ThanksText)
      ensures fields == if Classify(resp).Succeeded? then defaults else old(fields)
    {
      Settle(resp);
      Unlock();
    }

    /**
     * One whole submission whose request (if one is issued) ends in `resp`.
     * At most one request is issued, only after validation passes, and no
     * path that locked the form leaves it locked.
     */
    method Submit(resp: Response) returns (v: Verdict)
      modifies this
      ensures v == Validate(old(fields))
      ensures v == Drop ==> unchanged(this)
      ensures v != Proceed ==>
        requests == old(requests) && buttonDisabled == old(buttonDisabled) &&
        submitting == old(submitting) && fields == old(fields)
      ensures v == MissingFields ==> statusText == MissingFieldsText
      ensures v == BadEmail ==> statusText == BadEmailText
      ensures v == Proceed ==>
        requests == old(requests) + [ContactRequest(old(fields))] &&
        !buttonDisabled && !submitting &&
        statusText == OutcomeText(Classify(resp), ThanksText) &&
        fields == (if Classify(resp).Succeeded? then defaults else old(fields))
    {
      v := BeginSubmit();
      if v == Proceed {
        Complete(resp);
      }
    }
  }
}
