/** The RSVP decision: the transition function of one reply. */
module Rsvp {
  import opened Prelude
  import opened Store

  datatype Decision =
    | Decided(newChoice: Choice, newStatus: Status, needsContactDetails: bool)
    | Refused(error: Error)

  function Decide(previous: Option<Choice>, newChoice: Choice, hasContactDetails: bool): Decision {
    if previous == Some(newChoice) && newChoice.YES? then Refused(AlreadyAnswered)
    else if previous == Some(newChoice) && newChoice.NO? then Refused(AlreadyDeclined)
    else match newChoice
      case NO => Decided(NO, DECLINED, false)
      case MAYBE => Decided(MAYBE, PENDING, false)
      case YES => Decided(YES, ACCEPTED, hasContactDetails)
  }

  /** Which statuses go with which answer; every service call keeps each row inside this relation. */
  predicate Coupled(status: Status, choice: Option<Choice>) {
    match status
    case PENDING => choice == None || choice == Some(MAYBE)
    case ACCEPTED => choice == Some(YES)
    case APPROVED => choice == Some(YES)
    case APPROVAL_STAGED => choice != Some(NO)
    case DECLINED => choice == Some(NO)
    case REJECTED => true
    case CANCELED => false
  }

  predicate Answered(choice: Option<Choice>) {
    choice == Some(YES) || choice == Some(NO)
  }

  /**
   The decision is refused exactly for a repeated YES or NO, so never for the unanswered
   invitations `reply` lets through; a decided one couples, and asks for contact
   details exactly when an acceptance brought them.
   */
  lemma DecisionMeaning(previous: Option<Choice>, newChoice: Choice, details: bool)
    ensures var d := Decide(previous, newChoice, details);
      && (d.Refused? <==> Answered(previous) && previous == Some(newChoice))
      && (d.Decided? ==> Coupled(d.newStatus, Some(d.newChoice)) && d.newChoice == newChoice)
      && (d.Decided? ==> (d.needsContactDetails <==> newChoice.YES? && details))
      && (d.Decided? ==> d.newStatus == PENDING || d.newStatus == ACCEPTED || d.newStatus == DECLINED)
  {
  }
}
