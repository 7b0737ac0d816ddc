/** The consent columns of the actor table and the values that may be written to them. */
module ConsentTypes {
  import opened Wrappers

  type ActorId = string

  datatype ConsentStatus = GRANTED | DENIED | UNKNOWN

  datatype ConsentMethod =
    NOT_RECORDED | PORTAL_CHECKBOX | SIGNED_FORM | EMAIL | VERBAL_FIELD | EMAIL_LINK

  /** The methods an admin write may assert: every one but the actor's own answer to a link. */
  predicate AdminAssertable(m: ConsentMethod) {
    m != EMAIL_LINK
  }

  /**
   * A date as text. Two texts are the same string only when they denote the same
   * instant and spell it the same way; spelling 0 is the one `toISOString` produces.
   */
  datatype DateText = DateText(instant: int, spelling: nat)

  function IsoText(instant: int): DateText {
    DateText(instant, 0)
  }

  /** A reference column value: the id of a consent request, or any other text. */
  datatype Reference = RequestId(index: nat) | Note(text: string)

  datatype Actor = Actor(
    email: Option<string>,
    consentStatus: ConsentStatus,
    consentMethod: ConsentMethod,
    consentObtainedAt: Option<int>,
    consentReference: Option<Reference>)

  /** A GRANTED actor is evidenced when it has a recorded method and a date. */
  predicate Evidenced(a: Actor) {
    a.consentMethod != NOT_RECORDED && a.consentObtainedAt.Some?
  }

  predicate Unevidenced(a: Actor) {
    a.consentStatus == GRANTED && !Evidenced(a)
  }

  predicate HoldsLinkGrant(a: Actor) {
    a.consentStatus == GRANTED && a.consentMethod == EMAIL_LINK
  }

  /** `!actor.email`: null and the empty string are both "no email". */
  predicate HasEmail(a: Actor) {
    a.email.Some? && a.email.value != ""
  }

  /** The consent part of a create or update body. */
  datatype Payload = Payload(
    email: Field<Option<string>>,
    consentStatus: Field<ConsentStatus>,
    consentMethod: Field<ConsentMethod>,
    consentObtainedAt: Field<Option<DateText>>,
    consentReference: Field<Option<Reference>>,
    acknowledged: bool)

  function Instant(d: Option<DateText>): Option<int> {
    if d.Some? then Some(d.value.instant) else None
  }

  function Iso(d: Option<int>): Option<DateText> {
    if d.Some? then Some(IsoText(d.value)) else None
  }
}
