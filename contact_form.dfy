/**
 * The contact form's submit handler (initContactForm) and its status-message
 * slot (showFormMessage). The DOM form is a class whose fields are the control
 * values, the submit button's disabled flag and label, the .form-message
 * elements, and the requests sent; fetch is an abstract outcome.
 */
module ContactForm {
  import opened Wrappers
  import opened JsText

  // ---------------------------------------------------------------------------
  // The email pattern /^[^\s@]+@[^\s@]+\.[^\s@]+$/
  // ---------------------------------------------------------------------------

  /** The character class [^\s@]. */
  predicate IsAddressChar(c: char) {
    !IsJsWhitespace(c) && c != '@'
  }

  /** Every character of s is in [^\s@]. */
  predicate IsAddressRun(s: string) {
    forall k :: 0 <= k < |s| ==> IsAddressChar(s[k])
  }

  /**
   * The regular expression read literally: s is A '@' B '.' C where A, B and C
   * are non-empty runs of [^\s@] (backtracking may pick any '.' of the domain).
   */
  ghost predicate MatchesEmailPattern(s: string) {
    exists at: nat, dot: nat | 0 < at && at + 1 < dot && dot + 1 < |s| ::
      s[at] == '@' && s[dot] == '.'
      && IsAddressRun(s[..at]) && IsAddressRun(s[at + 1..dot]) && IsAddressRun(s[dot + 1..])
  }

  /** The index of the first c in s, or |s| when there is none. */
  function IndexOf(s: string, c: char): (i: nat)
    ensures i <= |s| && c !in s[..i]
    ensures i < |s| ==> s[i] == c
  {
    if s == [] || s[0] == c then 0
    else
      var j := IndexOf(s[1..], c);
      assert s[..j + 1] == [s[0]] + s[1..][..j];
      j + 1
  }

  /** A '.' that is neither the first nor the last character of the domain. */
  predicate HasInnerDot(domain: string) {
    |domain| >= 3 && '.' in domain[1..|domain| - 1]
  }

  /**
   * The email check, computed: no whitespace, exactly one '@' with something
   * before it, and a domain after it with an inner '.'.
   */
  predicate IsValidEmail(s: string) {
    (forall k :: 0 <= k < |s| ==> !IsJsWhitespace(s[k]))
    && var at := IndexOf(s, '@');
    0 < at < |s| && '@' !in s[at + 1..] && HasInnerDot(s[at + 1..])
  }

  lemma EmailCheckSound(s: string)
    requires IsValidEmail(s)
    ensures MatchesEmailPattern(s)
  {
    var at := IndexOf(s, '@');
    var domain := s[at + 1..];
    var inner := domain[1..|domain| - 1];
    var k :| 0 <= k < |inner| && inner[k] == '.';
    var dot := at + 2 + k;
    assert s[dot] == '.';
    assert IsAddressRun(s[..at]) by {
      forall i | 0 <= i < at ensures IsAddressChar(s[..at][i]) {
        assert s[..at][i] == s[i];
        assert s[i] in s[..at];
      }
    }
    var mid, tail := s[at + 1..dot], s[dot + 1..];
    assert IsAddressRun(mid) by {
      forall i | 0 <= i < |mid| ensures IsAddressChar(mid[i]) {
        assert mid[i] == domain[i];
        assert domain[i] in domain;
      }
    }
    assert IsAddressRun(tail) by {
      forall i | 0 <= i < |tail| ensures IsAddressChar(tail[i]) {
        assert tail[i] == domain[dot - at + i];
        assert domain[dot - at + i] in domain;
      }
    }
  }

  /** IndexOf finds the first occurrence. */
  lemma {:induction false} IndexOfFirst(s: string, c: char, i: nat)
    requires i < |s| && s[i] == c && c !in s[..i]
    ensures IndexOf(s, c) == i
  {
    if i > 0 {
      assert s[0] in s[..i];
      assert s[1..][..i - 1] == s[..i][1..];
      IndexOfFirst(s[1..], c, i - 1);
    }
  }

  /** A split A '@' B '.' C of [^\s@] runs leaves '@' as the only character outside [^\s@]. */
  lemma SplitCharacters(s: string, at: nat, dot: nat)
    requires 0 < at && at + 1 < dot && dot + 1 < |s| && s[dot] == '.'
    requires IsAddressRun(s[..at]) && IsAddressRun(s[at + 1..dot]) && IsAddressRun(s[dot + 1..])
    ensures forall i :: 0 <= i < |s| && i != at ==> IsAddressChar(s[i])
  {
    forall i | 0 <= i < |s| && i != at ensures IsAddressChar(s[i]) {
      if i < at {
        assert s[i] == s[..at][i];
      } else if i < dot {
        assert s[i] == s[at + 1..dot][i - at - 1];
      } else if i > dot {
        assert s[i] == s[dot + 1..][i - dot - 1];
      }
    }
  }

  /**
   * When the '@' at index at is the only character outside [^\s@], the text
   * has no whitespace and no other '@' on either side of it.
   */
  lemma OnlyAt(s: string, at: nat)
    requires at < |s| && s[at] == '@'
    requires forall i :: 0 <= i < |s| && i != at ==> IsAddressChar(s[i])
    ensures forall k :: 0 <= k < |s| ==> !IsJsWhitespace(s[k])
    ensures '@' !in s[..at] && '@' !in s[at + 1..]
  {
    forall i | 0 <= i < at ensures s[..at][i] != '@' {
      assert s[..at][i] == s[i];
    }
    var tail := s[at + 1..];
    forall i | 0 <= i < |tail| ensures tail[i] != '@' {
      assert tail[i] == s[at + 1 + i];
    }
  }

  /** Any one split the regular expression could make passes the computed check. */
  lemma SplitPassesCheck(s: string, at: nat, dot: nat)
    requires 0 < at && at + 1 < dot && dot + 1 < |s| && s[at] == '@' && s[dot] == '.'
    requires IsAddressRun(s[..at]) && IsAddressRun(s[at + 1..dot]) && IsAddressRun(s[dot + 1..])
    ensures IsValidEmail(s)
  {
    SplitCharacters(s, at, dot);
    OnlyAt(s, at);
    IndexOfFirst(s, '@', at);
    var domain := s[at + 1..];
    assert domain[1..|domain| - 1][dot - at - 2] == '.';
  }

  lemma EmailCheckComplete(s: string)
    requires MatchesEmailPattern(s)
    ensures IsValidEmail(s)
  {
    var at: nat, dot: nat :| 0 < at && at + 1 < dot && dot + 1 < |s|
      && s[at] == '@' && s[dot] == '.'
      && IsAddressRun(s[..at]) && IsAddressRun(s[at + 1..dot]) && IsAddressRun(s[dot + 1..]);
    SplitPassesCheck(s, at, dot);
  }

  /** The computed check accepts exactly the strings the regular expression matches. */
  lemma EmailCheckMatchesPattern(s: string)
    ensures IsValidEmail(s) <==> MatchesEmailPattern(s)
  {
    if IsValidEmail(s) {
      EmailCheckSound(s);
    }
    if MatchesEmailPattern(s) {
      EmailCheckComplete(s);
    }
  }

  // ---------------------------------------------------------------------------
  // Validation
  // ---------------------------------------------------------------------------

  /** The controls whose values the handler insists on, in the order it tests them. */
  const RequiredFields: seq<string> := ["firstName", "lastName", "email", "phone"]

  /**
   * JavaScript truthiness of data[name] for a FormData entry: a missing entry
   * reads as undefined and "" is falsy; any other string, blanks included, is truthy.
   */
  predicate IsFilled(data: map<string, string>, name: string) {
    name in data && data[name] != ""
  }

  predicate AllRequiredFilled(data: map<string, string>) {
    forall name | name in RequiredFields :: IsFilled(data, name)
  }

  datatype Verdict = MissingField | InvalidEmail | Accepted

  /** The two local checks, in order: required fields first, the email pattern second. */
  function Validate(data: map<string, string>): (v: Verdict)
    ensures v == MissingField <==> exists name :: name in RequiredFields && !IsFilled(data, name)
    ensures v == InvalidEmail <==>
              AllRequiredFilled(data) && "email" in data && !MatchesEmailPattern(data["email"])
    ensures v == Accepted <==>
              AllRequiredFilled(data) && "email" in data && MatchesEmailPattern(data["email"])
  {
    if !IsFilled(data, "firstName") || !IsFilled(data, "lastName")
       || !IsFilled(data, "email") || !IsFilled(data, "phone") then
      MissingField
    else
      EmailCheckMatchesPattern(data["email"]);
      if !IsValidEmail(data["email"]) then InvalidEmail else Accepted
  }

  // ---------------------------------------------------------------------------
  // Messages and the outcome of one submission
  // ---------------------------------------------------------------------------

  const MissingFieldsText := "Please fill in all required fields."
  const InvalidEmailText := "Please enter a valid email address."
  const SuccessText := "Thank you! We'll be in touch within 24 hours."
  const FailureText := "Something went wrong. Please try again or call us directly."
  const SendingLabel := "Sending..."

  /** The type argument of showFormMessage: 'success' or 'error'. */
  datatype MessageKind = Success | Error

  /** A .form-message element: its text and its form-message-<type> class. */
  datatype FormMessage = FormMessage(text: string, kind: MessageKind)

  /** What the awaited fetch does: resolves with response.ok true, with response.ok false, or rejects. */
  datatype FetchOutcome = Ok | NotOk | Throws

  /** A POST the handler sends: its URL and the form data it carries. */
  datatype Request = Request(url: string, body: map<string, string>)

  /** `form.action || '/'`. */
  function RequestUrl(action: string): (url: string)
    ensures url != []
    ensures action != [] ==> url == action
    ensures action == [] ==> url == "/"
  {
    if action == "" then "/" else action
  }

  /** The error a rejected submission shows: each verdict has its own text. */
  function RejectionText(v: Verdict): (t: string)
    requires v != Accepted
    ensures t == MissingFieldsText <==> v == MissingField
    ensures t == InvalidEmailText <==> v == InvalidEmail
  {
    assert MissingFieldsText[7] != InvalidEmailText[7];
    match v
    case MissingField => MissingFieldsText
    case InvalidEmail => InvalidEmailText
  }

  /** How one submission ends, as the visitor sees it. */
  datatype Report = Report(message: FormMessage, requested: bool, reset: bool)

  /** The end of one submission of data whose request, if sent, ends with outcome. */
  function SubmissionReport(data: map<string, string>, outcome: FetchOutcome): (r: Report)
    ensures r.requested <==> Validate(data) == Accepted
    ensures r.reset <==> r.requested && outcome == Ok
    ensures r.message.kind == Success <==> r.reset
    ensures (exists name :: name in RequiredFields && !IsFilled(data, name)) ==>
              r.message.text == MissingFieldsText
    ensures r.requested && outcome != Ok ==> r.message == FormMessage(FailureText, Error)
    ensures Validate(data) == InvalidEmail ==> r.message == FormMessage(InvalidEmailText, Error)
    ensures r.reset ==> r.message == FormMessage(SuccessText, Success)
  {
    var v := Validate(data);
    if v != Accepted then Report(FormMessage(RejectionText(v), Error), false, false)
    else if outcome == Ok then Report(FormMessage(SuccessText, Success), true, true)
    else Report(FormMessage(FailureText, Error), true, false)
  }

  // ---------------------------------------------------------------------------
  // The form
  // ---------------------------------------------------------------------------

  class Form {
    /** The value of every named control, as FormData(form) collects them. */
    var fields: map<string, string>
    /** The values form.reset() restores: the controls' default values. */
    const defaults: map<string, string>
    /** form.action. */
    const action: string
    var buttonDisabled: bool
    var buttonLabel: string
    /** The .form-message elements of the form, in document order. */
    var messages: seq<FormMessage>
    /** The label a submission captured before it disabled the button, while its request is awaited. */
    var pendingLabel: Option<string>
    /** Every request sent so far, oldest first. */
    var requests: seq<Request>

    /**
     * At most one status message; the button is disabled exactly while a
     * request is awaited, and then reads "Sending...".
     */
    ghost predicate Valid()
      reads this
    {
      |messages| <= 1
      && (buttonDisabled <==> pendingLabel.Some?)
      && (pendingLabel.Some? ==> buttonLabel == SendingLabel)
    }

    constructor (defaults: map<string, string>, action: string, buttonText: string)
      ensures Valid()
      ensures this.defaults == defaults && this.action == action
      ensures fields == defaults && !buttonDisabled && buttonLabel == buttonText
      ensures messages == [] && pendingLabel == None && requests == []
    {
      this.defaults := defaults;
      this.action := action;
      fields := defaults;
      buttonDisabled := false;
      buttonLabel := buttonText;
      messages := [];
      pendingLabel := None;
      requests := [];
    }

    /** showFormMessage: the earlier message is removed and the new one takes its place. */
    method ShowMessage(text: string, kind: MessageKind)
      requires Valid()
      modifies this`messages
      ensures Valid()
      ensures messages == [FormMessage(text, kind)]
    {
      if messages != [] {
        messages := messages[1..];
      }
      messages := [FormMessage(text, kind)] + messages;
    }

    /** The handler up to the awaited fetch: validation, then the busy button and the request. */
    method BeginSubmit() returns (sent: bool)
      requires Valid() && pendingLabel == None
      modifies this`buttonDisabled, this`buttonLabel, this`messages, this`pendingLabel, this`requests
      ensures Valid()
      ensures sent <==> Validate(fields) == Accepted
      ensures !sent ==> messages == [FormMessage(RejectionText(Validate(fields)), Error)]
                        && !buttonDisabled && buttonLabel == old(buttonLabel)
                        && pendingLabel == None && requests == old(requests)
      ensures sent ==> messages == old(messages)
                       && buttonDisabled && buttonLabel == SendingLabel
                       && pendingLabel == Some(old(buttonLabel))
                       && requests == old(requests) + [Request(RequestUrl(action), fields)]
    {
      var originalText := buttonLabel;
      var verdict := Validate(fields);
      if verdict != Accepted {
        ShowMessage(RejectionText(verdict), Error);
        return false;
      }
      buttonDisabled := true;
      buttonLabel := SendingLabel;
      pendingLabel := Some(originalText);
      requests := requests + [Request(RequestUrl(action), fields)];
      sent := true;
    }

    /** The handler after the awaited fetch: the message, the reset on success, and the finally block. */
    method CompleteSubmit(outcome: FetchOutcome)
      requires Valid() && pendingLabel.Some?
      modifies this`fields, this`buttonDisabled, this`buttonLabel, this`messages, this`pendingLabel
      ensures Valid()
      ensures !buttonDisabled && buttonLabel == old(pendingLabel).value && pendingLabel == None
      ensures outcome == Ok ==> messages == [FormMessage(SuccessText, Success)] && fields == defaults
      ensures outcome != Ok ==> messages == [FormMessage(FailureText, Error)] && fields == old(fields)
    {
      if outcome == Ok {
        ShowMessage(SuccessText, Success);
        fields := defaults;
      } else {
        ShowMessage(FailureText, Error);
      }
      buttonDisabled := false;
      buttonLabel := pendingLabel.value;
      pendingLabel := None;
    }

    /** One whole submission: every outcome ends with the button enabled under its original label. */
    method Submit(outcome: FetchOutcome) returns (sent: bool)
      requires Valid() && pendingLabel == None
      modifies this`fields, this`buttonDisabled, this`buttonLabel, this`messages, this`pendingLabel, this`requests
      ensures Valid() && pendingLabel == None
      ensures !buttonDisabled && buttonLabel == old(buttonLabel)
      ensures var r := SubmissionReport(old(fields), outcome);
              sent == r.requested
              && messages == [r.message]
              && fields == (if r.reset then defaults else old(fields))
              && requests == old(requests) + (if sent then [Request(RequestUrl(action), old(fields))] else [])
    {
      sent := BeginSubmit();
      if sent {
        CompleteSubmit(outcome);
      }
    }
  }

  // ---------------------------------------------------------------------------
  // Consequences
  // ---------------------------------------------------------------------------

  /** A non-ok response and a rejected fetch end the same way. */
  lemma FailuresLookAlike(data: map<string, string>)
    ensures SubmissionReport(data, NotOk) == SubmissionReport(data, Throws)
    ensures Validate(data) == Accepted ==>
              SubmissionReport(data, NotOk) == Report(FormMessage(FailureText, Error), true, false)
  {
  }

  /** One address the pattern accepts and one it rejects. */
  lemma EmailExamples()
    ensures MatchesEmailPattern("a@b.co")
    ensures !MatchesEmailPattern("not-an-email")
  {
    var good := "a@b.co";
    assert good[..1] == "a" && good[2..3] == "b" && good[4..] == "co";
    assert good[1] == '@' && good[3] == '.';
    assert IsAddressRun(good[..1]) && IsAddressRun(good[2..3]) && IsAddressRun(good[4..]);
    var bad := "not-an-email";
    assert forall i | 0 <= i < |bad| :: bad[i] != '@';
  }
}
