/**
 * The older contact-form controller of public/scripts/main.js: only the
 * required-field check before posting, and a stricter success rule
 * (`payload.ok` must be truthy). The comparison lemmas at the end relate
 * it to the controller of src/main.js.
 */
module LegacyContactForm {
  import opened Lookup
  import opened ContactApi
  import ContactForm

  /** The one check this handler makes before posting. */
  datatype Verdict = MissingFields | Proceed

  const SendingText := "Sending\U{2026}"
  const ThanksText := "Thanks \U{2014} we\U{2019}ll be in touch shortly."

  /** Only `name`, `email` and `message` are checked; the honeypot and the e-mail shape are not. */
  function Validate(fields: Fields): Verdict
  {
    if !RequiredFilled(fields) then MissingFields else Proceed
  }

  /**
   * `res.ok && payload.ok` decides success: an absent `ok`, and so an
   * unparseable body, is a failure here.
   */
  function Classify(resp: Response): (o: Outcome)
    ensures o.Succeeded? <==>
      resp.Received? && resp.httpOk && resp.body.Json? &&
      resp.body.payload.ok.Other? && resp.body.payload.ok.truthy
    ensures o.NetworkFailure? <==> resp.Threw? || resp.body.JsonNull?
    ensures o.Rejected? ==> o.message != ""
    ensures o.Rejected? && resp.body.Json? && resp.body.payload.error.Some? && resp.body.payload.error.value != ""
      ==> o.message == resp.body.payload.error.value
    ensures o.Rejected? && !(resp.body.Json? && resp.body.payload.error.Some? && resp.body.payload.error.value != "")
      ==> o.message == GenericFailureText
  {
    match resp
    case Threw => NetworkFailure
    case Received(httpOk, body) =>
      match PayloadOf(body)
      case None => NetworkFailure
      case Some(p) =>
        if httpOk && p.ok.Other? && p.ok.truthy then Succeeded
        else Rejected(ErrorOr(p, GenericFailureText))
  }

  /** The form, its submit button and its status element; `requests` records every `fetch`. */
  class Controller {
    var fields: Fields
    var statusText: string
    var buttonDisabled: bool
    var submitting: bool
    var requests: seq<Request>
    /** The values `form.reset()` restores. */
    const defaults: Fields

    constructor (initialFields: Fields, defaultFields: Fields, initialStatus: string)
      ensures fields == initialFields && defaults == defaultFields && statusText == initialStatus
      ensures !buttonDisabled && !submitting && requests == []
    {
      fields := initialFields;
      defaults := defaultFields;
      statusText := initialStatus;
      buttonDisabled := false;
      submitting := false;
      requests := [];
    }

    method ShowStatus(text: string)
      modifies this`statusText
      ensures statusText == text
    {
      statusText := text;
    }

    /** Disabling the button, adding `is-submitting` and showing "Sending…". */
    method Lock()
      modifies this`buttonDisabled, this`submitting, this`statusText
      ensures buttonDisabled && submitting && statusText == SendingText
    {
      buttonDisabled := true;
      submitting := true;
      statusText := SendingText;
    }

    /** Issuing the request with the whole field map, honeypot included, as body. */
    method Post(data: Fields)
      modifies this`requests
      ensures requests == old(requests) + [ContactRequest(data)]
    {
      requests := requests + [ContactRequest(data)];
    }

    method Reset()
      modifies this`fields
      ensures fields == defaults
    {
      fields := defaults;
    }

    method Settle(resp: Response)
      modifies this`statusText, this`fields
      ensures statusText == OutcomeText(Classify(resp), ThanksText)
      ensures fields == if Classify(resp).Succeeded? then defaults else old(fields)
    {
      var outcome := Classify(resp);
      ShowStatus(OutcomeText(outcome, ThanksText));
      if outcome.Succeeded? {
        Reset();
      }
    }

    /** The `finally` block. */
    method Unlock()
      modifies this`buttonDisabled, this`submitting
      ensures !buttonDisabled && !submitting
    {
      buttonDisabled := false;
      submitting := false;
    }

    /** The handler up to the `await`. */
    method BeginSubmit() returns (v: Verdict)
      modifies this
      ensures v == Validate(old(fields))
      ensures fields == old(fields)
      ensures v == MissingFields ==>
        statusText == MissingFieldsText && requests == old(requests) &&
        buttonDisabled == old(buttonDisabled) && submitting == old(submitting)
      ensures v == Proceed ==>
        buttonDisabled && submitting && statusText == SendingText &&
        requests == old(requests) + [ContactRequest(fields)]
    {
      var data := fields;
      v := Validate(data);
      if v == MissingFields {
        ShowStatus(MissingFieldsText);
      } else {
        Lock();
        Post(data);
      }
    }

    /** The handler after the `await`: settle, then always unlock. */
    method Complete(resp: Response)
      modifies this
      ensures !buttonDisabled && !submitting
      ensures requests == old(requests)
      ensures statusText == OutcomeText(Classify(resp), ThanksText)
      ensures fields == if Classify(resp).Succeeded? then defaults else old(fields)
    {
      Settle(resp);
      Unlock();
    }

    /** One whole submission whose request (if one is issued) ends in `resp`. */
    method Submit(resp: Response) returns (v: Verdict)
      modifies this
      ensures v == Validate(old(fields))
      ensures v == MissingFields ==>
        statusText == MissingFieldsText && requests == old(requests) && fields == old(fields) &&
        buttonDisabled == old(buttonDisabled) && submitting == old(submitting)
      ensures v == Proceed ==>
        requests == old(requests) + [ContactRequest(old(fields))] &&
        !buttonDisabled && !submitting &&
        statusText == OutcomeText(Classify(resp), ThanksText) &&
        fields == (if Classify(resp).Succeeded? then defaults else old(fields))
    {
      v := BeginSubmit();
      if v == Proceed {
        Complete(resp);
      }
    }
  }

  // ---------------------------------------------------------------------
  // How the two controllers differ
  // ---------------------------------------------------------------------

  /** Whatever the current handler lets through, the older one lets through too. */
  lemma CurrentValidationIsStricter(fields: Fields)
    ensures ContactForm.Validate(fields) == ContactForm.Proceed ==> Validate(fields) == Proceed
    ensures ContactForm.Validate(fields) == ContactForm.MissingFields ==> Validate(fields) == MissingFields
    ensures Validate(fields) == MissingFields ==>
      ContactForm.Validate(fields) in {ContactForm.Drop, ContactForm.MissingFields}
  {
  }

  /** The older handler posts a filled honeypot and a malformed address that the current one stops. */
  lemma OnlyCurrentHandlerFilters()
    ensures var bot := map["name" := "n", "email" := "e@x.io", "message" := "m", "hp" := "spam"];
      ContactForm.Validate(bot) == ContactForm.Drop && Validate(bot) == Proceed
    ensures var typo := map["name" := "n", "email" := "not-an-email", "message" := "m"];
      ContactForm.Validate(typo) == ContactForm.BadEmail && Validate(typo) == Proceed
  {
    ContactForm.EmailExamples();
  }

  /** Every response the older handler counts as a success, the current one does too. */
  lemma LegacySuccessImpliesCurrentSuccess(resp: Response)
    ensures Classify(resp).Succeeded? ==> ContactForm.Classify(resp).Succeeded?
    ensures Classify(resp).NetworkFailure? <==> ContactForm.Classify(resp).NetworkFailure?
  {
  }

  /**
   * The two success rules part exactly on a successful HTTP status whose
   * payload has an `ok` that is not `false` but is not truthy either: no
   * `ok` at all (an unparseable body included), or a falsy `ok` such as 0.
   */
  lemma SuccessRulesDiverge(resp: Response)
    ensures ContactForm.Classify(resp).Succeeded? && !Classify(resp).Succeeded? <==>
      resp.Received? && resp.httpOk && PayloadOf(resp.body).Some? &&
      (PayloadOf(resp.body).value.ok.Absent? || PayloadOf(resp.body).value.ok == Other(false))
    ensures ContactForm.Classify(Received(true, Unparseable)) == Succeeded
    ensures Classify(Received(true, Unparseable)) == Rejected(GenericFailureText)
  {
  }
}
