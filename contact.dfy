/**
 * The contact form of the portfolio page: the draft and its status, the
 * submission that validates the trimmed draft and then either posts it to a
 * form endpoint or falls back to a `mailto:` link (section 2 of RFC 6068:
 * `mailto:` address, then `?subject=` and `&body=` header fields).
 *
 * The network request is replaced by its outcome, encodeURIComponent by the
 * parameter `encode`, and the whitespace set of String.prototype.trim by the
 * parameter `isSpace`.
 */
module Contact {
  import opened Wrappers
  import opened Text

  /** What the visitor has typed into the four fields. */
  datatype Draft = Draft(name: string, email: string, subject: string, message: string)

  const EmptyDraft: Draft := Draft("", "", "", "")

  /** The four submission states. */
  datatype State = Idle | Sending | Sent | Error

  /** The fixed human-readable messages the form can show. */
  datatype Notice = NoNotice | MissingFields | SendingNotice | SentNotice | DeliveryFailed

  /** The state shown under the form, with its message. */
  datatype Status = Status(state: State, notice: Notice) {
    /** The message text displayed beside the state. */
    function Message(): (m: string)
    {
      NoticeText(notice)
    }
  }

  /** How the POST to the form endpoint ended: `res.ok`, not `res.ok`, or a thrown exception. */
  datatype FetchOutcome = Ok | NotOk | Exception

  /** The four form fields, for editing. */
  datatype Field = NameField | EmailField | SubjectField | MessageField

  /** The text of each message. */
  function NoticeText(n: Notice): (m: string)
  {
    match n
    case NoNotice => ""
    case MissingFields => "Please provide your email and a message."
    case SendingNotice => "Sending\U{2026}"
    case SentNotice => "Message sent. I will respond as soon as possible."
    case DeliveryFailed => "Could not send via the form endpoint. Please use the email link below."
  }

  const InitialStatus: Status := Status(Idle, NoNotice)
  const SubjectPrefix: string := "Portfolio message from "

  /** Each state carries the message the page pairs with it. */
  predicate WellFormedStatus(st: Status)
  {
    match st.state
    case Idle => st.notice == NoNotice
    case Sending => st.notice == SendingNotice
    case Sent => st.notice == SentNotice
    case Error => st.notice == MissingFields || st.notice == DeliveryFailed
  }

  // ---------------------------------------------------------------------------
  // Validation
  // ---------------------------------------------------------------------------

  /** The payload: every field of the draft trimmed. */
  function Trimmed(d: Draft, isSpace: char -> bool): (p: Draft)
  {
    Draft(Trim(d.name, isSpace), Trim(d.email, isSpace), Trim(d.subject, isSpace), Trim(d.message, isSpace))
  }

  /** The payload may be sent: email and message are both non-empty. */
  predicate Deliverable(payload: Draft)
  {
    payload.email != "" && payload.message != ""
  }

  /** Some character of `s` is not whitespace. */
  ghost predicate HasVisible(s: string, isSpace: char -> bool)
  {
    exists k :: 0 <= k < |s| && !isSpace(s[k])
  }

  /**
   * A draft passes validation exactly when its email and its message each
   * contain a character that is not whitespace; every payload field is trimmed.
   */
  lemma ValidationIff(d: Draft, isSpace: char -> bool)
    ensures Deliverable(Trimmed(d, isSpace)) <==>
      HasVisible(d.email, isSpace) && HasVisible(d.message, isSpace)
    ensures var p := Trimmed(d, isSpace);
      IsTrimmed(p.name, isSpace) && IsTrimmed(p.email, isSpace) &&
      IsTrimmed(p.subject, isSpace) && IsTrimmed(p.message, isSpace)
  {
    TrimEmptyIff(d.email, isSpace);
    TrimEmptyIff(d.message, isSpace);
    TrimIsTrimmed(d.name, isSpace);
    TrimIsTrimmed(d.email, isSpace);
    TrimIsTrimmed(d.subject, isSpace);
    TrimIsTrimmed(d.message, isSpace);
  }

  /** Trimming an already trimmed payload changes nothing. */
  lemma TrimmedIdempotent(d: Draft, isSpace: char -> bool)
    ensures Trimmed(Trimmed(d, isSpace), isSpace) == Trimmed(d, isSpace)
  {
    TrimIdempotent(d.name, isSpace);
    TrimIdempotent(d.email, isSpace);
    TrimIdempotent(d.subject, isSpace);
    TrimIdempotent(d.message, isSpace);
  }

  // ---------------------------------------------------------------------------
  // The mailto fallback
  // ---------------------------------------------------------------------------

  /** The subject: the one typed, or else the trimmed default built from the name. */
  function SubjectLine(payload: Draft, isSpace: char -> bool): (r: string)
  {
    if payload.subject != "" then payload.subject else Trim(SubjectPrefix + payload.name, isSpace)
  }

  /** The body: name and email header lines, a blank line, then the message. */
  function MailBody(payload: Draft): (r: string)
  {
    "Name: " + payload.name + "\nEmail: " + payload.email + "\n\n" + payload.message
  }

  /** The `mailto:` link with URI-encoded subject and body header fields. */
  function MailtoHref(ownerEmail: string, payload: Draft, isSpace: char -> bool,
                      encode: string -> string): (href: string)
  {
    "mailto:" + ownerEmail + "?subject=" + encode(SubjectLine(payload, isSpace))
      + "&body=" + encode(MailBody(payload))
  }

  /**
   * Reads a link of the shape `mailto:TO?subject=S&body=B` back into its
   * address and its two still-encoded header values.
   */
  function ParseMailto(href: string): (r: Option<(string, string, string)>)
  {
    if |href| < 7 || href[..7] != "mailto:" then None
    else match SplitAt(href[7..], '?')
      case None => None
      case Some((to, query)) =>
        if |query| < 8 || query[..8] != "subject=" then None
        else match SplitAt(query[8..], '&')
          case None => None
          case Some((subject, rest)) =>
            if |rest| < 5 || rest[..5] != "body=" then None
            else Some((to, subject, rest[5..]))
  }

  /**
   * The link is well formed: reading it back gives the owner's address, the
   * encoded subject and the encoded body, provided the address has no `?`
   * and the encoder never emits `&` (encodeURIComponent escapes it as %26).
   */
  lemma {:induction false} MailtoRoundTrip(ownerEmail: string, payload: Draft, isSpace: char -> bool,
                                           encode: string -> string)
    requires '?' !in ownerEmail
    requires forall s :: '&' !in encode(s)
    ensures ParseMailto(MailtoHref(ownerEmail, payload, isSpace, encode)) ==
      Some((ownerEmail, encode(SubjectLine(payload, isSpace)), encode(MailBody(payload))))
  {
    var es, eb := encode(SubjectLine(payload, isSpace)), encode(MailBody(payload));
    var href := MailtoHref(ownerEmail, payload, isSpace, encode);
    var query := "subject=" + es + "&body=" + eb;
    assert href[..7] == "mailto:";
    assert href[7..] == ownerEmail + ['?'] + query;
    SplitAtFirst(ownerEmail, '?', query);
    assert query[..8] == "subject=";
    assert query[8..] == es + ['&'] + ("body=" + eb);
    SplitAtFirst(es, '&', "body=" + eb);
    assert ("body=" + eb)[..5] == "body=";
    assert ("body=" + eb)[5..] == eb;
  }

  /** The whitespace set holds the space character and no ASCII letter, as trim's does. */
  ghost predicate SpaceNotLetter(isSpace: char -> bool)
  {
    isSpace(' ') && forall c :: ('A' <= c <= 'Z' || 'a' <= c <= 'z') ==> !isSpace(c)
  }

  /**
   * With no subject typed, the subject is "Portfolio message from NAME", and
   * just "Portfolio message from", without the trailing space, when the name
   * is empty.
   */
  lemma DefaultSubject(payload: Draft, isSpace: char -> bool)
    requires SpaceNotLetter(isSpace)
    requires payload.subject == ""
    requires IsTrimmed(payload.name, isSpace)
    ensures payload.name == "" ==> SubjectLine(payload, isSpace) == "Portfolio message from"
    ensures payload.name != "" ==> SubjectLine(payload, isSpace) == SubjectPrefix + payload.name
  {
    var s := SubjectPrefix + payload.name;
    assert s[0] == 'P';
    if payload.name == "" {
      var shorter := "Portfolio message from";
      assert s == shorter + " ";
      assert s[..|s| - 1] == shorter;
      assert TrimStart(s, isSpace) == s;
      assert TrimEnd(shorter, isSpace) == shorter;
    } else {
      assert s[|s| - 1] == payload.name[|payload.name| - 1];
      TrimOfTrimmed(s, isSpace);
    }
  }

  /** The draft of the worked example: Alex, a@x.com, no subject, message "Hi". */
  const AlexDraft: Draft := Draft("Alex", "a@x.com", "", "Hi")

  /** The example draft is already trimmed and passes validation. */
  lemma AlexDraftTrimmed(isSpace: char -> bool)
    requires SpaceNotLetter(isSpace)
    ensures Trimmed(AlexDraft, isSpace) == AlexDraft && Deliverable(AlexDraft)
  {
  }

  /** The example's subject and body. */
  lemma AlexSubjectAndBody(isSpace: char -> bool)
    requires SpaceNotLetter(isSpace)
    ensures SubjectLine(AlexDraft, isSpace) == "Portfolio message from Alex"
    ensures MailBody(AlexDraft) == "Name: Alex\nEmail: a@x.com\n\nHi"
  {
  }

  /**
   * The worked example end to end: the link's subject decodes to
   * "Portfolio message from Alex" and its body to
   * "Name: Alex\nEmail: a@x.com\n\nHi".
   */
  lemma AlexExample(ownerEmail: string, isSpace: char -> bool, encode: string -> string,
                    decode: string -> string)
    requires SpaceNotLetter(isSpace)
    requires '?' !in ownerEmail
    requires forall s :: '&' !in encode(s)
    requires forall s :: decode(encode(s)) == s
    ensures var r := ParseMailto(MailtoHref(ownerEmail, Trimmed(AlexDraft, isSpace), isSpace, encode));
      && r.Some?
      && r.value.0 == ownerEmail
      && decode(r.value.1) == "Portfolio message from Alex"
      && decode(r.value.2) == "Name: Alex\nEmail: a@x.com\n\nHi"
  {
    AlexDraftTrimmed(isSpace);
    AlexSubjectAndBody(isSpace);
    MailtoRoundTrip(ownerEmail, AlexDraft, isSpace, encode);
  }

  // ---------------------------------------------------------------------------
  // The form
  // ---------------------------------------------------------------------------

  /** The form's state: the draft being typed and the submission status. */
  class ContactForm {
    var contact: Draft
    var status: Status
    /** Every status the form has shown, oldest first; the last is the current one. */
    ghost var shown: seq<Status>
    /** The payloads posted to the form endpoint, oldest first. */
    ghost var posted: seq<Draft>

    ghost predicate Valid()
      reads this
    {
      && WellFormedStatus(status)
      && |shown| > 0 && shown[|shown| - 1] == status
      && forall i :: 0 <= i < |shown| ==> WellFormedStatus(shown[i])
    }

    /** An empty draft, and the idle status with no message. */
    constructor ()
      ensures Valid()
      ensures contact == EmptyDraft && status == InitialStatus && shown == [InitialStatus]
      ensures posted == []
    {
      contact := EmptyDraft;
      status := InitialStatus;
      shown := [InitialStatus];
      posted := [];
    }

    /** Typing into one field replaces that field of the draft. */
    method Edit(field: Field, value: string)
      requires Valid()
      modifies this
      ensures Valid()
      ensures contact == match field
        case NameField => old(contact).(name := value)
        case EmailField => old(contact).(email := value)
        case SubjectField => old(contact).(subject := value)
        case MessageField => old(contact).(message := value)
      ensures status == old(status) && shown == old(shown) && posted == old(posted)
    {
      match field
      case NameField => contact := contact.(name := value);
      case EmailField => contact := contact.(email := value);
      case SubjectField => contact := contact.(subject := value);
      case MessageField => contact := contact.(message := value);
    }

    /** Shows a new status (setContactStatus). */
    method SetStatus(st: Status)
      requires Valid() && WellFormedStatus(st)
      modifies this
      ensures Valid()
      ensures status == st && shown == old(shown) + [st]
      ensures contact == old(contact) && posted == old(posted)
    {
      status := st;
      shown := shown + [st];
    }

    /**
     * Submits the draft. A payload without email or message is refused with
     * the validation error and nothing else happens. With an endpoint the
     * form shows "Sending…" and then either "sent" with the draft cleared,
     * or the delivery error with the draft kept. Without an endpoint the
     * status is left alone and the mailto link to open is returned.
     */
    method Submit(endpointConfigured: bool, outcome: FetchOutcome, ownerEmail: string,
                  isSpace: char -> bool, encode: string -> string) returns (href: Option<string>)
      requires Valid()
      modifies this
      ensures Valid()
      ensures !Deliverable(Trimmed(old(contact), isSpace)) ==>
        && status == Status(Error, MissingFields)
        && status.Message() == "Please provide your email and a message."
        && contact == old(contact)
        && shown == old(shown) + [status]
        && posted == old(posted)
        && href == None
      ensures Deliverable(Trimmed(old(contact), isSpace)) && endpointConfigured ==>
        && shown == old(shown) + [Status(Sending, SendingNotice), status]
        && shown[|shown| - 2].Message() == "Sending\U{2026}"
        && posted == old(posted) + [Trimmed(old(contact), isSpace)]
        && href == None
        && (outcome == Ok ==>
              && status == Status(Sent, SentNotice)
              && status.Message() == "Message sent. I will respond as soon as possible."
              && contact == EmptyDraft)
        && (outcome != Ok ==>
              && status == Status(Error, DeliveryFailed)
              && status.Message() == "Could not send via the form endpoint. Please use the email link below."
              && contact == old(contact))
      ensures Deliverable(Trimmed(old(contact), isSpace)) && !endpointConfigured ==>
        && href == Some(MailtoHref(ownerEmail, Trimmed(old(contact), isSpace), isSpace, encode))
        && status == old(status)
        && contact == old(contact)
        && shown == old(shown)
        && posted == old(posted)
    {
      var payload := Trimmed(contact, isSpace);
      if !Deliverable(payload) {
        SetStatus(Status(Error, MissingFields));
        return None;
      }
      if endpointConfigured {
        SetStatus(Status(Sending, SendingNotice));
        posted := posted + [payload];
        if outcome == Ok {
          SetStatus(Status(Sent, SentNotice));
          contact := EmptyDraft;
        } else {
          SetStatus(Status(Error, DeliveryFailed));
        }
        return None;
      }
      href := Some(MailtoHref(ownerEmail, payload, isSpace, encode));
    }
  }
}
