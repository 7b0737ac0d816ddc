/** The shared provenance rule, and the admin update gate built on it. */
module ConsentPolicy {
  import opened Wrappers
  import opened ConsentTypes

  /**
   * `isSameProvenanceValue` for the date column: a stored date normalizes to its ISO
   * text, a submitted text is compared as it stands.
   */
  predicate SameDate(submitted: Option<DateText>, stored: Option<int>) {
    submitted == Iso(stored)
  }

  /** Condition (b) of the guard: some provenance field is given a value that differs from the stored one. */
  predicate ProvenanceChanged(stored: Option<Actor>, p: Payload) {
    || (p.consentMethod.Given?
        && (stored.None? || p.consentMethod.value != stored.value.consentMethod))
    || (p.consentObtainedAt.Given?
        && !SameDate(p.consentObtainedAt.value,
                     if stored.Some? then stored.value.consentObtainedAt else None))
    || (p.consentReference.Given?
        && p.consentReference.value != (if stored.Some? then stored.value.consentReference else None))
  }

  predicate IsConsentProvenanceSatisfied(stored: Option<Actor>, p: Payload) {
    var effectiveStatus: Option<ConsentStatus> :=
      if p.consentStatus.Given? then Some(p.consentStatus.value)
      else if stored.Some? then Some(stored.value.consentStatus) else None;
    if effectiveStatus != Some(GRANTED) then true
    else
      var transitionsIntoGranted := stored.None? || stored.value.consentStatus != GRANTED;
      if !transitionsIntoGranted && !ProvenanceChanged(stored, p) then true
      else
        var effectiveMethod: Option<ConsentMethod> :=
          if p.consentMethod.Given? then Some(p.consentMethod.value)
          else if stored.Some? then Some(stored.value.consentMethod) else None;
        var effectiveObtainedAt: Option<int> :=
          if p.consentObtainedAt.Given? then Instant(p.consentObtainedAt.value)
          else if stored.Some? then stored.value.consentObtainedAt else None;
        && effectiveMethod.Some?
        && effectiveMethod.value != NOT_RECORDED
        && effectiveObtainedAt.Some?
  }

  /** The row a partial payload leaves behind: every given column is written, every absent one is kept. */
  function Merge(before: Actor, p: Payload): Actor {
    Actor(
      p.email.Or(before.email),
      p.consentStatus.Or(before.consentStatus),
      p.consentMethod.Or(before.consentMethod),
      if p.consentObtainedAt.Given? then Instant(p.consentObtainedAt.value) else before.consentObtainedAt,
      p.consentReference.Or(before.consentReference))
  }

  /** The column defaults a create starts from. */
  const Blank: Actor := Actor(None, UNKNOWN, NOT_RECORDED, None, None)

  /**
   * The predicate read off the row the write would leave: it refuses exactly the writes
   * that end GRANTED without evidence, except one that leaves a GRANTED row's
   * provenance as it was.
   */
  lemma {:induction false} ProvenanceMeansPostWriteEvidence(before: Actor, p: Payload)
    ensures IsConsentProvenanceSatisfied(Some(before), p)
            <==> || !Unevidenced(Merge(before, p))
                 || (before.consentStatus == GRANTED && !ProvenanceChanged(Some(before), p))
    ensures IsConsentProvenanceSatisfied(None, p) <==> !Unevidenced(Merge(Blank, p))
  {
  }

  // ---- admin create ---------------------------------------------------------

  datatype WriteError =
    | AcknowledgementRequired
    | ProvenanceRequired
    | EmailRequired
    | LinkNotAssertable        // rule 1
    | GrantNeedsAdminMethod    // rule 2
    | LinkEvidenceFrozen       // rule 3

  /** Admin create; the import and approval paths reach it with payloads of their own. */
  function NewActor(p: Payload): (r: Result<Actor, WriteError>)
    requires p.consentMethod.Given? ==> AdminAssertable(p.consentMethod.value)
    ensures r.Ok? ==> !Unevidenced(r.value) && AdminAssertable(r.value.consentMethod)
  {
    if p.consentStatus == Given(GRANTED) && !p.acknowledged then Err(AcknowledgementRequired)
    else if !IsConsentProvenanceSatisfied(None, p) then Err(ProvenanceRequired)
    else Ok(Merge(Blank, p))
  }

  /** The payload `approve` projects from a registration. */
  function ApprovalPayload(submitterEmail: string, acceptedAt: int, reference: string): Payload {
    Payload(Given(Some(submitterEmail)), Given(GRANTED), Given(PORTAL_CHECKBOX),
            Given(Some(IsoText(acceptedAt))), Given(Some(Note(reference))), true)
  }

  /** The provenance check inside `approve` cannot refuse, and the published row carries the registration's evidence. */
  lemma {:induction false} ApprovalIsEvidenced(submitterEmail: string, acceptedAt: int, reference: string)
    ensures NewActor(ApprovalPayload(submitterEmail, acceptedAt, reference))
            == Ok(Actor(Some(submitterEmail), GRANTED, PORTAL_CHECKBOX, Some(acceptedAt), Some(Note(reference))))
  {
  }

  // ---- admin update ---------------------------------------------------------

  predicate IsLinkReGrant(before: Actor, p: Payload) {
    && before.consentStatus != GRANTED
    && before.consentMethod == EMAIL_LINK
    && p.consentStatus.Or(before.consentStatus) == GRANTED
  }

  /** Rules 1-3: who may move a row into EMAIL_LINK, and when link evidence is frozen. */
  function EnforceConsentMethodRules(before: Actor, p: Payload): Option<WriteError> {
    var effectiveStatus := p.consentStatus.Or(before.consentStatus);
    var effectiveMethod := p.consentMethod.Or(before.consentMethod);
    if p.consentMethod == Given(EMAIL_LINK) && before.consentMethod != EMAIL_LINK then
      Some(LinkNotAssertable)
    else if effectiveStatus == GRANTED && before.consentStatus != GRANTED && effectiveMethod == EMAIL_LINK then
      Some(GrantNeedsAdminMethod)
    else if before.consentMethod == EMAIL_LINK && effectiveStatus == before.consentStatus
            && ProvenanceChanged(Some(before), p) then
      Some(LinkEvidenceFrozen)
    else None
  }

  /** The stored row as the provenance check sees it: a link re-grant inherits no date and no reference. */
  function ProvenanceBefore(before: Actor, p: Payload): Actor {
    if IsLinkReGrant(before, p) then before.(consentObtainedAt := None, consentReference := None) else before
  }

  /** The payload as it is written: a link re-grant that names no reference clears the stored one. */
  function PayloadForWrite(before: Actor, p: Payload): Payload {
    if IsLinkReGrant(before, p) then p.(consentReference := Given(p.consentReference.Or(None))) else p
  }

  function UpdateActor(before: Actor, p: Payload): Result<Actor, WriteError> {
    if !HasEmail(Merge(before, p)) then Err(EmailRequired)
    else if p.consentStatus == Given(GRANTED) && before.consentStatus != GRANTED && !p.acknowledged then
      Err(AcknowledgementRequired)
    else
      var rule := EnforceConsentMethodRules(before, p);
      if rule.Some? then Err(rule.value)
      else if !IsConsentProvenanceSatisfied(Some(ProvenanceBefore(before, p)), p) then Err(ProvenanceRequired)
      else Ok(Merge(before, PayloadForWrite(before, p)))
  }

  // ---- the update gate, written out over the stored row and the payload --------------------

  /** No provenance field is given a value other than the stored one; a date must come back as its ISO text. */
  predicate RepeatsProvenance(before: Actor, p: Payload) {
    && (p.consentMethod.Given? ==> p.consentMethod.value == before.consentMethod)
    && (p.consentObtainedAt.Given? ==>
          if p.consentObtainedAt.value.None? then before.consentObtainedAt.None?
          else before.consentObtainedAt == Some(p.consentObtainedAt.value.value.instant)
               && p.consentObtainedAt.value.value.spelling == 0)
    && (p.consentReference.Given? ==> p.consentReference.value == before.consentReference)
  }

  predicate LeavesEmail(before: Actor, p: Payload) {
    var email := if p.email.Given? then p.email.value else before.email;
    email.Some? && email.value != ""
  }

  predicate MovesIntoGranted(before: Actor, p: Payload) {
    before.consentStatus != GRANTED && p.consentStatus.Given? && p.consentStatus.value == GRANTED
  }

  predicate StaysOrBecomesLink(before: Actor, p: Payload) {
    if p.consentMethod.Given? then p.consentMethod.value == EMAIL_LINK else before.consentMethod == EMAIL_LINK
  }

  predicate KeepsStatus(before: Actor, p: Payload) {
    p.consentStatus.Given? ==> p.consentStatus.value == before.consentStatus
  }

  /** Rules 1 to 3 let the write through. */
  predicate KeepsLinkRules(before: Actor, p: Payload) {
    && (p.consentMethod == Given(EMAIL_LINK) ==> before.consentMethod == EMAIL_LINK)
    && (MovesIntoGranted(before, p) ==> !StaysOrBecomesLink(before, p))
    && (before.consentMethod == EMAIL_LINK && KeepsStatus(before, p) ==> RepeatsProvenance(before, p))
  }

  /** A method is recorded and a date there: given, or stored and not of a lapsed link answer. */
  predicate BringsEvidence(before: Actor, p: Payload) {
    && (if p.consentMethod.Given? then p.consentMethod.value != NOT_RECORDED else before.consentMethod != NOT_RECORDED)
    && (if p.consentObtainedAt.Given? then p.consentObtainedAt.value.Some?
        else before.consentObtainedAt.Some? && !(MovesIntoGranted(before, p) && before.consentMethod == EMAIL_LINK))
  }

  /** A write that ends GRANTED brings evidence, or found the row GRANTED and repeats what is stored. */
  predicate KeepsProvenanceRule(before: Actor, p: Payload) {
    MovesIntoGranted(before, p) || (before.consentStatus == GRANTED && KeepsStatus(before, p)) ==>
      BringsEvidence(before, p) || (before.consentStatus == GRANTED && RepeatsProvenance(before, p))
  }

  /** When an update is taken, and which refusal it meets first when it is not. */
  lemma {:induction false} UpdateAcceptedExactlyWhen(before: Actor, p: Payload)
    ensures UpdateActor(before, p).Ok?
            <==> && LeavesEmail(before, p) && (MovesIntoGranted(before, p) ==> p.acknowledged)
                 && KeepsLinkRules(before, p) && KeepsProvenanceRule(before, p)
    ensures UpdateActor(before, p) == Err(EmailRequired) <==> !LeavesEmail(before, p)
    ensures UpdateActor(before, p) == Err(AcknowledgementRequired)
            <==> LeavesEmail(before, p) && MovesIntoGranted(before, p) && !p.acknowledged
    ensures UpdateActor(before, p) == Err(ProvenanceRequired)
            <==> && LeavesEmail(before, p) && (MovesIntoGranted(before, p) ==> p.acknowledged)
                 && KeepsLinkRules(before, p) && !KeepsProvenanceRule(before, p)
  {
    assert SameDate(p.consentObtainedAt.Or(None), before.consentObtainedAt)
           <==> p.consentObtainedAt.Or(None) == Iso(before.consentObtainedAt);
  }

  /** What each column becomes: a given one is written, an absent one kept, but for the reference of a link re-grant. */
  lemma {:induction false} UpdateWritesColumns(before: Actor, p: Payload)
    requires UpdateActor(before, p).Ok?
    ensures var after := UpdateActor(before, p).value;
            && after.email == (if p.email.Given? then p.email.value else before.email)
            && after.consentStatus == (if p.consentStatus.Given? then p.consentStatus.value else before.consentStatus)
            && after.consentMethod == (if p.consentMethod.Given? then p.consentMethod.value else before.consentMethod)
            && after.consentObtainedAt
               == (if p.consentObtainedAt.Absent? then before.consentObtainedAt
                   else if p.consentObtainedAt.value.None? then None else Some(p.consentObtainedAt.value.value.instant))
            && after.consentReference
               == (if p.consentReference.Given? then p.consentReference.value
                   else if MovesIntoGranted(before, p) && before.consentMethod == EMAIL_LINK then None
                   else before.consentReference)
  {
  }

  /** When a create is taken, and what each column of the new actor is. */
  lemma {:induction false} CreateAcceptedExactlyWhen(p: Payload)
    requires p.consentMethod.Given? ==> AdminAssertable(p.consentMethod.value)
    ensures NewActor(p).Ok?
            <==> (p.consentStatus == Given(GRANTED) ==>
                    && p.acknowledged
                    && p.consentMethod.Given? && p.consentMethod.value != NOT_RECORDED
                    && p.consentObtainedAt.Given? && p.consentObtainedAt.value.Some?)
    ensures NewActor(p) == Err(AcknowledgementRequired) <==> p.consentStatus == Given(GRANTED) && !p.acknowledged
    ensures NewActor(p).Ok? ==>
              var actor := NewActor(p).value;
              && actor.email == (if p.email.Given? then p.email.value else None)
              && actor.consentStatus == (if p.consentStatus.Given? then p.consentStatus.value else UNKNOWN)
              && actor.consentMethod == (if p.consentMethod.Given? then p.consentMethod.value else NOT_RECORDED)
              && actor.consentObtainedAt
                 == (if p.consentObtainedAt.Given? && p.consentObtainedAt.value.Some?
                     then Some(p.consentObtainedAt.value.value.instant) else None)
              && actor.consentReference == (if p.consentReference.Given? then p.consentReference.value else None)
  {
  }

  /** The ratchet, one row at a time: an update leaves a row GRANTED without evidence only if it found it so. */
  lemma {:induction false} UpdateKeepsEvidence(before: Actor, p: Payload)
    requires UpdateActor(before, p).Ok?
    ensures Unevidenced(UpdateActor(before, p).value) ==> Unevidenced(before)
  {
    ProvenanceMeansPostWriteEvidence(ProvenanceBefore(before, p), p);
  }

  /** No update puts a row into a link grant; one that leaves a row there changes none of its evidence. */
  lemma {:induction false} UpdateNeverAssertsLink(before: Actor, p: Payload)
    requires UpdateActor(before, p).Ok?
    ensures var after := UpdateActor(before, p).value;
            && (after.consentMethod == EMAIL_LINK ==> before.consentMethod == EMAIL_LINK)
            && (HoldsLinkGrant(after) ==> HoldsLinkGrant(before))
            && (before.consentMethod == EMAIL_LINK && after.consentStatus == before.consentStatus ==>
                  after == before.(email := after.email))
  {
  }

  /** A row that answered by link and lost its grant is re-granted from the payload alone. */
  lemma {:induction false} ReGrantTakesPayloadAlone(before: Actor, p: Payload)
    requires UpdateActor(before, p).Ok? && IsLinkReGrant(before, p)
    ensures var after := UpdateActor(before, p).value;
            && p.consentMethod.Given? && AdminAssertable(p.consentMethod.value)
            && p.consentObtainedAt.Given? && p.consentObtainedAt.value.Some?
            && after.consentStatus == GRANTED
            && after.consentMethod == p.consentMethod.value
            && after.consentObtainedAt == Some(p.consentObtainedAt.value.value.instant)
            && after.consentReference == p.consentReference.Or(None)
  {
    ProvenanceMeansPostWriteEvidence(ProvenanceBefore(before, p), p);
  }

  /** A full-object save: every consent column re-sent with the instant or value the row holds. */
  predicate ResendsStored(before: Actor, p: Payload) {
    && p.consentStatus == Given(before.consentStatus)
    && p.consentMethod == Given(before.consentMethod)
    && p.consentObtainedAt.Given? && Instant(p.consentObtainedAt.value) == before.consentObtainedAt
    && p.consentReference == Given(before.consentReference)
  }

  /** The date is re-sent in the spelling the API itself returned. */
  predicate CanonicalDate(p: Payload) {
    p.consentObtainedAt.Given? && p.consentObtainedAt.value.Some? ==>
      p.consentObtainedAt.value.value.spelling == 0
  }

  /**
   * Re-sending the stored values is refused by the provenance check exactly for a GRANTED
   * row with a date and no recorded method whose date arrives in another spelling.
   */
  lemma {:induction false} ResendRefusedExactlyWhen(before: Actor, p: Payload)
    requires ResendsStored(before, p)
    ensures IsConsentProvenanceSatisfied(Some(before), p)
            <==> !(Unevidenced(before) && before.consentObtainedAt.Some? && !CanonicalDate(p))
  {
    ProvenanceMeansPostWriteEvidence(before, p);
  }

  /**
   * The whole update: re-sending the stored values is refused exactly for a row left without an
   * email, and for a row with a date that arrives in another spelling when the row answered by
   * link (its evidence is frozen as text) or is GRANTED without a recorded method.
   */
  lemma {:induction false} ResendUpdateRefusedExactlyWhen(before: Actor, p: Payload)
    requires ResendsStored(before, p)
    ensures UpdateActor(before, p).Err?
            <==> || !HasEmail(Merge(before, p))
                 || (before.consentObtainedAt.Some? && !CanonicalDate(p)
                     && (before.consentMethod == EMAIL_LINK || Unevidenced(before)))
  {
    ProvenanceMeansPostWriteEvidence(ProvenanceBefore(before, p), p);
  }

  /** The two families the conditions above shut out are not empty. */
  lemma {:induction false} NonCanonicalResendIsRefused()
    ensures var legacy := Actor(Some("a@b"), GRANTED, NOT_RECORDED, Some(7), None);
            var p := Payload(Absent, Given(GRANTED), Given(NOT_RECORDED), Given(Some(DateText(7, 1))), Given(None), false);
            ResendsStored(legacy, p) && UpdateActor(legacy, p) == Err(ProvenanceRequired)
    ensures var answered := Actor(Some("a@b"), GRANTED, EMAIL_LINK, Some(7), Some(RequestId(0)));
            var p := Payload(Absent, Given(GRANTED), Given(EMAIL_LINK), Given(Some(DateText(7, 1))),
                             Given(Some(RequestId(0))), false);
            ResendsStored(answered, p) && UpdateActor(answered, p) == Err(LinkEvidenceFrozen)
  {
  }

  /** A save that touches no consent value succeeds on every row that has an email, legacy rows included. */
  lemma {:induction false} LegacyRowStaysEditable(before: Actor, p: Payload)
    requires ResendsStored(before, p) && CanonicalDate(p)
    requires HasEmail(Merge(before, p))
    ensures UpdateActor(before, p) == Ok(before.(email := p.email.Or(before.email)))
  {
  }
}
