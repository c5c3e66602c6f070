/** What each kind of SES feedback means, spelled out on its fields
    (apps/notifications/src/app/feedback/ses-feedback-policy.ts). */
module FeedbackMeaning {
  import opened Prelude
  import opened Revisions
  import opened FeedbackPolicy

  predicate SameLetter(c: char, lower: char) {
    c == lower || ('A' <= c <= 'Z' && c as int - 'A' as int == lower as int - 'a' as int)
  }

  /** The word, in capital or small letters. */
  predicate Spells(s: string, word: string) {
    |s| == |word| && forall i :: 0 <= i < |s| ==> SameLetter(s[i], word[i])
  }

  lemma ToLowerSpells(s: string, word: string)
    requires forall i :: 0 <= i < |word| ==> 'a' <= word[i] <= 'z'
    ensures ToLower(s) == word <==> Spells(s, word)
  {
    if Spells(s, word) {
      forall i | 0 <= i < |s|
        ensures LowerChar(s[i]) == word[i]
      {
        assert SameLetter(s[i], word[i]);
      }
    }
    if ToLower(s) == word {
      forall i | 0 <= i < |s|
        ensures SameLetter(s[i], word[i])
      {
        assert LowerChar(s[i]) == word[i];
      }
    }
  }

  predicate NamesSuppressionList(subType: string) {
    || Spells(subType, "emailvalidationsuppressed") || Spells(subType, "suppressed")
    || Spells(subType, "onaccountsuppressionlist") || Spells(subType, "ontenantsuppressionlist")
  }

  /** SES itself refused to send: the address is on a suppression list. */
  predicate BySuppressionList(f: Feedback) {
    match f
    case Bounce(_, subType) => NamesSuppressionList(subType)
    case Complaint(Some(subType), _) => NamesSuppressionList(subType)
    case _ => false
  }

  predicate IsPermanent(f: Feedback) {
    f.Bounce? && Spells(f.bounceType, "permanent")
  }

  predicate IsTransient(f: Feedback) {
    f.Bounce? && Spells(f.bounceType, "transient")
  }

  /** Nothing may be sent to the mailbox any more. */
  predicate EndsMailbox(f: Feedback) {
    f.Complaint? || IsPermanent(f) || (f.Bounce? && NamesSuppressionList(f.bounceSubType))
  }

  /** It says whether the mailbox can be reached at present. */
  predicate IsNews(f: Feedback) {
    f.Delivered? || f.DeliveryDelay? || IsTransient(f)
  }

  lemma ToLowerMeans(s: string)
    ensures ToLower(s) == "permanent" <==> Spells(s, "permanent")
    ensures ToLower(s) == "transient" <==> Spells(s, "transient")
    ensures IsSuppressionSubtype(s) <==> NamesSuppressionList(s)
  {
    ToLowerSpells(s, "permanent");
    ToLowerSpells(s, "transient");
    ToLowerSpells(s, "emailvalidationsuppressed");
    ToLowerSpells(s, "suppressed");
    ToLowerSpells(s, "onaccountsuppressionlist");
    ToLowerSpells(s, "ontenantsuppressionlist");
  }

  lemma SubTypeMeans(f: Feedback)
    ensures IsProviderSuppression(f) <==> BySuppressionList(f)
    ensures IsPermanentBounce(f) <==> IsPermanent(f)
    ensures f.Bounce? ==> (ToLower(f.bounceType) == "transient" <==> IsTransient(f))
  {
    match f {
      case Bounce(bounceType, subType) =>
        ToLowerMeans(bounceType);
        ToLowerMeans(subType);
      case Complaint(Some(subType), _) =>
        ToLowerMeans(subType);
      case _ =>
    }
  }

  /** The terminal mailbox events, and what every other event says about the mailbox: a delivery makes
      it active, a delay or a transient bounce is a temporary failure, anything else says nothing. */
  lemma MailboxMeans(f: Feedback)
    ensures IsTerminalMailboxEvent(f) <==> EndsMailbox(f)
    ensures DestinationStatusOf(f) == Some(Active) <==> f.Delivered?
    ensures DestinationStatusOf(f) == Some(TemporaryFailure) <==> f.DeliveryDelay? || IsTransient(f)
    ensures DestinationStatusOf(f) == None <==> !IsNews(f)
  {
    SubTypeMeans(f);
    hide ToLower, Spells, NamesSuppressionList, IsSuppressionSubtype;
  }

  /** The status that an event gives its delivery. */
  lemma StatusMeans(f: Feedback)
    ensures StatusOf(f) == ACCEPTED <==> f.Send?
    ensures StatusOf(f) == DELIVERED <==> f.Delivered?
    ensures StatusOf(f) == DELAYED <==> f.DeliveryDelay?
    ensures StatusOf(f) == SUPPRESSED <==> BySuppressionList(f)
    ensures StatusOf(f) == BOUNCED <==> f.Bounce? && !BySuppressionList(f)
    ensures StatusOf(f) == COMPLAINED <==> f.Complaint? && !BySuppressionList(f)
    ensures StatusOf(f) == REJECTED <==> f.Reject?
    ensures StatusOf(f) == FAILED <==> f.RenderingFailure?
  {
    SubTypeMeans(f);
    hide ToLower, Spells, NamesSuppressionList, IsSuppressionSubtype;
  }

  /** How much an event weighs against another of the same time. */
  function Weight(f: Feedback): nat {
    if BySuppressionList(f) then 7
    else if f.Complaint? then 6
    else if IsPermanent(f) then 5
    else if f.Bounce? then 4
    else if f.Reject? || f.RenderingFailure? then 3
    else if f.Delivered? then 2
    else if f.DeliveryDelay? then 1
    else 0
  }

  lemma PrecedenceMeans(f: Feedback, g: Feedback)
    ensures Precedence(f) < Precedence(g) <==> Weight(f) < Weight(g)
  {
    SubTypeMeans(f);
    SubTypeMeans(g);
    hide ToLower, Spells, NamesSuppressionList, IsSuppressionSubtype;
  }

  // ----- failure codes -----

  predicate IsWord(s: string) {
    forall i :: 0 <= i < |s| ==> IsAlphanumeric(s[i])
  }

  predicate IsGap(s: string) {
    s != "" && forall i :: 0 <= i < |s| ==> !IsAlphanumeric(s[i])
  }

  /** The word in capital letters. */
  predicate Capitals(s: string, word: string) {
    |s| == |word| && forall i :: 0 <= i < |s| ==>
      s[i] == if 'a' <= word[i] <= 'z' then (word[i] as int - 'a' as int + 'A' as int) as char else word[i]
  }

  /** Sanitizing goes word by word: each comes out in capitals. */
  lemma {:induction false} SanitizeWord(word: string, rest: string, inRun: bool)
    requires IsWord(word) && word != ""
    ensures exists capitals :: Capitals(capitals, word) && Sanitize(word + rest, inRun) == capitals + Sanitize(rest, false)
  {
    var tail := word[1..];
    assert (word + rest)[1..] == tail + rest && (word + rest)[0] == word[0];
    if tail == "" {
      assert tail + rest == rest;
      assert Capitals([UpperChar(word[0])], word);
    } else {
      SanitizeWord(tail, rest, false);
      var capitals :| Capitals(capitals, tail) && Sanitize(tail + rest, false) == capitals + Sanitize(rest, false);
      var all := [UpperChar(word[0])] + capitals;
      assert Capitals(all, word);
      assert all + Sanitize(rest, false) == [UpperChar(word[0])] + (capitals + Sanitize(rest, false));
    }
  }

  /** And each gap between words as one underscore. */
  lemma {:induction false} SanitizeGap(gap: string, rest: string)
    requires IsGap(gap) && (rest == "" || IsAlphanumeric(rest[0]))
    ensures Sanitize(gap + rest, false) == "_" + Sanitize(rest, false)
    ensures Sanitize(gap + rest, true) == Sanitize(rest, false)
  {
    var tail := gap[1..];
    assert (gap + rest)[1..] == tail + rest && (gap + rest)[0] == gap[0];
    if tail == "" {
      assert tail + rest == rest;
    } else {
      SanitizeGap(tail, rest);
    }
  }

  /** A constant of capital letters with single underscores stays as it is. */
  lemma {:induction false} SanitizeKeeps(s: string, inRun: bool)
    requires forall i :: 0 <= i < |s| ==> 'A' <= s[i] <= 'Z' || s[i] == '_'
    requires forall i :: 0 <= i < |s| - 1 ==> s[i] != '_' || s[i + 1] != '_'
    requires inRun && s != "" ==> s[0] != '_'
    ensures Sanitize(s, inRun) == s
  {
    if s != "" {
      SanitizeKeeps(s[1..], s[0] == '_');
      assert s == [s[0]] + s[1..];
    }
  }

  function Part(part: string): string {
    if part == "" then "" else "_" + Sanitize(part, false)
  }

  predicate CutAt100(code: string, full: string) {
    code == if |full| <= 100 then full else full[..100]
  }

  lemma JoinOne(a: string)
    ensures JoinCodes([a]) == if a == "" then "" else Sanitize(a, false)
    ensures NoCodes([a]) <==> a == ""
  {
    assert a in [a] && [a][1..] == [];
    assert NoCodes([]);
  }

  lemma JoinTwo(a: string, b: string)
    ensures JoinCodes([a, b]) == if a == "" then JoinCodes([b]) else Sanitize(a, false) + Part(b)
    ensures NoCodes([a, b]) <==> a == "" && b == ""
  {
    assert [a, b] == [a] + [b];
    JoinOne(a);
    JoinOne(b);
    JoinAppends([a], [b]);
    NoCodesAppend([a], [b]);
    hide JoinCodes, NoCodes, Sanitize;
  }

  lemma Prefixed(a: string, b: string, c: string)
    ensures a + b + c == a + (b + c) && a + "" == a
  {
  }

  lemma JoinTail(a: string, b: string)
    ensures Part(a) + Part(b) == if NoCodes([a, b]) then "" else "_" + JoinCodes([a, b])
  {
    JoinOne(b);
    JoinTwo(a, b);
    hide JoinCodes, NoCodes, Sanitize;
    Prefixed("_", Sanitize(a, false), Part(b));
  }

  lemma JoinThree(head: string, a: string, b: string)
    requires head != "" && Sanitize(head, false) == head
    ensures JoinCodes([head, a, b]) == head + (Part(a) + Part(b))
    ensures JoinCodes([head, a]) == head + Part(a)
  {
    hide *;
    assert [head, a, b] == [head] + [a, b];
    JoinOne(head);
    JoinTwo(head, a);
    JoinTail(a, b);
    JoinAppends([head], [a, b]);
    Prefixed(head, "_", JoinCodes([a, b]));
  }

  /** Cutting the joined parts, the first of which is a constant. */
  lemma CodeOfParts(head: string, a: string, b: string)
    requires head != "" && Sanitize(head, false) == head
    ensures CutAt100(SafeCode([head, a, b]), head + (Part(a) + Part(b)))
    ensures CutAt100(SafeCode([head, a]), head + Part(a))
  {
    JoinThree(head, a, b);
    hide Sanitize, JoinCodes, Part;
  }

  lemma HeadsAreSanitized()
    ensures Sanitize("DELIVERY_DELAY", false) == "DELIVERY_DELAY"
    ensures Sanitize("BOUNCE", false) == "BOUNCE" && Sanitize("COMPLAINT", false) == "COMPLAINT"
  {
    hide Sanitize;
    SanitizeKeeps("DELIVERY_DELAY", false);
    SanitizeKeeps("BOUNCE", false);
    SanitizeKeeps("COMPLAINT", false);
  }

  lemma DelayCode(f: Feedback)
    requires f.DeliveryDelay?
    ensures FailureCode(f).Some? && CutAt100(FailureCode(f).value, "DELIVERY_DELAY" + Part(f.delayType))
  {
    hide Sanitize, JoinCodes, Part, SafeCode, CutAt100;
    HeadsAreSanitized();
    CodeOfParts("DELIVERY_DELAY", f.delayType, "");
  }

  lemma BounceCode(f: Feedback)
    requires f.Bounce?
    ensures FailureCode(f).Some? && CutAt100(FailureCode(f).value, "BOUNCE" + (Part(f.bounceType) + Part(f.bounceSubType)))
  {
    hide Sanitize, JoinCodes, Part, SafeCode, CutAt100;
    HeadsAreSanitized();
    CodeOfParts("BOUNCE", f.bounceType, f.bounceSubType);
  }

  function PartOf(part: Option<string>): string {
    if part.Some? then Part(part.value) else ""
  }

  lemma PartOfEmpty(part: Option<string>)
    ensures PartOf(part) == Part(OrEmpty(part))
  {
    hide Sanitize;
  }

  lemma ComplaintCode(f: Feedback)
    requires f.Complaint?
    ensures FailureCode(f).Some?
    ensures CutAt100(FailureCode(f).value, "COMPLAINT" + (PartOf(f.complaintSubType) + PartOf(f.complaintFeedbackType)))
  {
    var a, b := OrEmpty(f.complaintSubType), OrEmpty(f.complaintFeedbackType);
    assert FailureCode(f) == Some(SafeCode(["COMPLAINT", a, b])) by { hide SafeCode, OrEmpty; }
    hide *;
    PartOfEmpty(f.complaintSubType);
    PartOfEmpty(f.complaintFeedbackType);
    HeadsAreSanitized();
    CodeOfParts("COMPLAINT", a, b);
  }

  lemma OtherCode(f: Feedback)
    ensures f.Send? || f.Delivered? ==> FailureCode(f) == None
    ensures f.Reject? ==> FailureCode(f) == Some("SES_REJECTED")
    ensures f.RenderingFailure? ==> FailureCode(f) == Some("RENDERING_FAILURE")
  {
    hide SafeCode;
  }

  /** The failure code of every event: its kind, then its sanitized subtypes. */
  lemma CodeMeans(f: Feedback)
    ensures match f
      case Send => FailureCode(f) == None
      case Delivered => FailureCode(f) == None
      case DeliveryDelay(delayType) =>
        FailureCode(f).Some? && CutAt100(FailureCode(f).value, "DELIVERY_DELAY" + Part(delayType))
      case Bounce(bounceType, subType) =>
        FailureCode(f).Some? && CutAt100(FailureCode(f).value, "BOUNCE" + (Part(bounceType) + Part(subType)))
      case Complaint(subType, feedbackType) =>
        FailureCode(f).Some? && CutAt100(FailureCode(f).value, "COMPLAINT" + (PartOf(subType) + PartOf(feedbackType)))
      case Reject => FailureCode(f) == Some("SES_REJECTED")
      case RenderingFailure => FailureCode(f) == Some("RENDERING_FAILURE")
  {
    hide *;
    match f {
      case DeliveryDelay(delayType) => DelayCode(f);
      case Bounce(bounceType, subType) => BounceCode(f);
      case Complaint(subType, feedbackType) => ComplaintCode(f);
      case _ => OtherCode(f);
    }
  }
}
