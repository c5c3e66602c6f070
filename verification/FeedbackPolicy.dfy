/** What SES feedback means for deliveries and destinations
    (apps/notifications/src/app/feedback/ses-feedback-policy.ts). */
module FeedbackPolicy {
  import opened Prelude
  import opened Revisions

  datatype Feedback =
    | Send
    | Delivered
    | DeliveryDelay(delayType: string)
    | Bounce(bounceType: string, bounceSubType: string)
    | Complaint(complaintSubType: Option<string>, complaintFeedbackType: Option<string>)
    | Reject
    | RenderingFailure

  datatype DeliveryStatus =
    | PENDING | ACCEPTED | DELIVERED | DELAYED | BOUNCED | COMPLAINED | REJECTED | FAILED | SUBMISSION_UNKNOWN | SUPPRESSED

  datatype DestinationStatus = Active | TemporaryFailure | Suppressed | RecoveryPending

  /** A provider event.  `id` is the identifier that a run draws for its event row. */
  datatype Event = Event(
    id: nat,
    deliveryId: nat,
    messageId: nat,
    mailTimestamp: int,
    occurredAt: int,
    fingerprint: nat,
    feedback: Feedback)

  function LowerChar(c: char): char {
    if 'A' <= c <= 'Z' then c - 'A' + 'a' else c
  }

  function ToLower(s: string): string {
    seq(|s|, i requires 0 <= i < |s| => LowerChar(s[i]))
  }

  predicate IsSuppressionSubtype(s: string) {
    ToLower(s) in {"emailvalidationsuppressed", "suppressed", "onaccountsuppressionlist", "ontenantsuppressionlist"}
  }

  predicate IsProviderSuppression(f: Feedback) {
    match f
    case Bounce(_, subType) => IsSuppressionSubtype(subType)
    case Complaint(Some(subType), _) => IsSuppressionSubtype(subType)
    case _ => false
  }

  predicate IsPermanentBounce(f: Feedback) {
    f.Bounce? && ToLower(f.bounceType) == "permanent"
  }

  predicate IsTerminalMailboxEvent(f: Feedback) {
    f.Complaint? || (f.Bounce? && (IsPermanentBounce(f) || IsProviderSuppression(f)))
  }

  function Precedence(f: Feedback): int {
    if IsProviderSuppression(f) then 70
    else
      match f
      case Complaint(_, _) => 60
      case Bounce(_, _) => if IsPermanentBounce(f) then 50 else 45
      case Reject => 40
      case RenderingFailure => 40
      case Delivered => 30
      case DeliveryDelay(_) => 20
      case Send => 10
  }

  function StatusOf(f: Feedback): DeliveryStatus {
    match f
    case Send => ACCEPTED
    case Delivered => DELIVERED
    case DeliveryDelay(_) => DELAYED
    case Bounce(_, _) => if IsProviderSuppression(f) then SUPPRESSED else BOUNCED
    case Complaint(_, _) => if IsProviderSuppression(f) then SUPPRESSED else COMPLAINED
    case Reject => REJECTED
    case RenderingFailure => FAILED
  }

  /** `None` where the event says nothing about the destination. */
  function DestinationStatusOf(f: Feedback): Option<DestinationStatus> {
    match f
    case Delivered => Some(Active)
    case DeliveryDelay(_) => Some(TemporaryFailure)
    case Bounce(bounceType, _) => if ToLower(bounceType) == "transient" then Some(TemporaryFailure) else None
    case _ => None
  }

  // ----- failure codes -----

  predicate IsAlphanumeric(c: char) {
    'A' <= c <= 'Z' || 'a' <= c <= 'z' || '0' <= c <= '9'
  }

  function UpperChar(c: char): char {
    if 'a' <= c <= 'z' then c - 'a' + 'A' else c
  }

  predicate IsCodeChar(c: char) {
    'A' <= c <= 'Z' || '0' <= c <= '9' || c == '_'
  }

  /** Every run of other characters becomes one underscore; letters become upper case. */
  function Sanitize(s: string, inRun: bool): (code: string)
    ensures forall i :: 0 <= i < |code| ==> IsCodeChar(code[i])
  {
    if s == "" then ""
    else if IsAlphanumeric(s[0]) then [UpperChar(s[0])] + Sanitize(s[1..], false)
    else (if inRun then "" else "_") + Sanitize(s[1..], true)
  }

  /** Sanitizing a sanitized part changes nothing. */
  lemma {:induction false} SanitizeIsIdempotent(s: string, inRun: bool)
    ensures Sanitize(Sanitize(s, inRun), inRun) == Sanitize(s, inRun)
  {
    if s != "" {
      var rest := Sanitize(s[1..], !IsAlphanumeric(s[0]));
      SanitizeIsIdempotent(s[1..], !IsAlphanumeric(s[0]));
      if IsAlphanumeric(s[0]) {
        assert ([UpperChar(s[0])] + rest)[1..] == rest;
      } else if !inRun {
        assert ("_" + rest)[1..] == rest;
      } else {
        assert Sanitize(s, inRun) == rest;
      }
    }
  }

  predicate NoCodes(parts: seq<string>) {
    forall part :: part in parts ==> part == ""
  }

  lemma NoCodesAppend(a: seq<string>, b: seq<string>)
    ensures NoCodes(a + b) <==> NoCodes(a) && NoCodes(b)
  {
    assert forall part :: part in a + b <==> part in a || part in b;
  }

  function JoinCodes(parts: seq<string>): (code: string)
    ensures forall i :: 0 <= i < |code| ==> IsCodeChar(code[i])
  {
    if parts == [] then ""
    else if parts[0] == "" then JoinCodes(parts[1..])
    else
      var rest := JoinCodes(parts[1..]);
      Sanitize(parts[0], false) + (if NoCodes(parts[1..]) then "" else "_" + rest)
  }

  lemma JoinHead(parts: seq<string>)
    requires parts != []
    ensures NoCodes([parts[0]]) <==> parts[0] == ""
    ensures JoinCodes(parts) == if NoCodes([parts[0]]) then JoinCodes(parts[1..])
                                else Sanitize(parts[0], false) + if NoCodes(parts[1..]) then "" else "_" + JoinCodes(parts[1..])
  {
    assert parts[0] in [parts[0]];
  }

  lemma {:induction false} NoCodesJoin(parts: seq<string>)
    requires NoCodes(parts)
    ensures JoinCodes(parts) == ""
  {
    if parts != [] {
      assert parts == [parts[0]] + parts[1..] && parts[0] in parts;
      NoCodesAppend([parts[0]], parts[1..]);
      NoCodesJoin(parts[1..]);
    }
  }

  lemma GlueAssociates(a: string, b: string, c: string)
    ensures a + ("_" + (b + "_" + c)) == a + ("_" + b) + "_" + c
  {
  }

  /** Lists of parts join like their codes: empty parts disappear and exactly one underscore stands
      between two codes. */
  lemma {:induction false} JoinAppends(a: seq<string>, b: seq<string>)
    ensures JoinCodes(a + b) == if NoCodes(a) then JoinCodes(b) else if NoCodes(b) then JoinCodes(a)
                                else JoinCodes(a) + "_" + JoinCodes(b)
  {
    if a == [] {
      assert a + b == b;
    } else {
      assert (a + b)[1..] == a[1..] + b;
      assert a == [a[0]] + a[1..] && a[0] in [a[0]];
      NoCodesAppend([a[0]], a[1..]);
      NoCodesAppend(a[1..], b);
      if NoCodes(b) {
        NoCodesJoin(b);
      }
      NoCodesAppend([a[0]], a[1..] + b);
      hide *;
      JoinAppends(a[1..], b);
      JoinHead(a + b);
      JoinHead(a);
      var head := Sanitize(a[0], false);
      var (rest, more) := (JoinCodes(a[1..]), JoinCodes(b));
      if !NoCodes([a[0]]) && !NoCodes(a[1..]) && !NoCodes(b) {
        GlueAssociates(head, rest, more);
      }
    }
  }

  /** The code is the joined parts, cut off after 100 characters. */
  function SafeCode(parts: seq<string>): (code: string)
    ensures |code| <= 100 && forall i :: 0 <= i < |code| ==> IsCodeChar(code[i])
    ensures code <= JoinCodes(parts) && (|code| < 100 ==> code == JoinCodes(parts))
  {
    var joined := JoinCodes(parts);
    if |joined| <= 100 then joined else joined[..100]
  }

  function OrEmpty(s: Option<string>): string {
    if s.Some? then s.value else ""
  }

  function FailureCode(f: Feedback): Option<string> {
    match f
    case DeliveryDelay(delayType) => Some(SafeCode(["DELIVERY_DELAY", delayType]))
    case Bounce(bounceType, subType) => Some(SafeCode(["BOUNCE", bounceType, subType]))
    case Complaint(subType, feedbackType) => Some(SafeCode(["COMPLAINT", OrEmpty(subType), OrEmpty(feedbackType)]))
    case Reject => Some("SES_REJECTED")
    case RenderingFailure => Some("RENDERING_FAILURE")
    case _ => None
  }

  function RevisionOf(e: Event): Revision {
    Revision(e.occurredAt, Precedence(e.feedback), e.fingerprint)
  }

  // ----- sets of events -----

  predicate IsTerminal(e: Event) {
    IsTerminalMailboxEvent(e.feedback)
  }

  predicate Older(a: Event, b: Event) {
    Before(RevisionOf(a), RevisionOf(b))
  }

  /** Equal fingerprints imply equal events. */
  ghost predicate Identified(es: seq<Event>) {
    forall a, b :: a in es && b in es && a.fingerprint == b.fingerprint ==> a == b
  }

  ghost predicate SomeTerminal(es: seq<Event>) {
    exists t :: t in es && IsTerminal(t)
  }

  ghost predicate SameMembers(a: seq<Event>, b: seq<Event>) {
    forall e :: e in a <==> e in b
  }

  lemma OlderOrder(a: Event, b: Event, c: Event)
    ensures Older(a, b) || RevisionOf(a) == RevisionOf(b) || Older(b, a)
    ensures !(Older(a, b) && Older(b, a))
    ensures Older(a, b) && Older(b, c) ==> Older(a, c)
    ensures NewerEvent(StampOf(RevisionOf(a)), RevisionOf(b)) <==> Older(a, b)
    ensures StampLess(StampOf(RevisionOf(a)), StampOf(RevisionOf(b))) <==> Older(a, b)
  {
    RevisionOrder(RevisionOf(a), RevisionOf(b), RevisionOf(c));
    GuardIsOrder(StampOf(RevisionOf(a)), RevisionOf(b));
  }

  // ----- statuses that end a delivery -----

  predicate IsTerminalStatus(s: DeliveryStatus) {
    s == BOUNCED || s == COMPLAINED || s == SUPPRESSED
  }

  /** A bounce that is neither permanent nor a provider suppression: it writes a terminal delivery
      status without being a terminal mailbox event. */
  predicate IsSoftBounce(f: Feedback) {
    f.Bounce? && !IsTerminalMailboxEvent(f)
  }

  /** Terminal statuses are written by exactly the terminal mailbox events and the soft bounces. */
  lemma TerminalStatusSources(f: Feedback)
    ensures IsTerminalStatus(StatusOf(f)) <==> IsTerminalMailboxEvent(f) || IsSoftBounce(f)
    ensures StatusOf(f) != PENDING && StatusOf(f) != SUBMISSION_UNKNOWN
  {
  }
}
