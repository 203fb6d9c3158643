/**
 What an approval does, told from outside, and exactly which replies, plus-ones
 and public RSVPs are approved at once.
 */
module ApprovalEffects {
  import opened Prelude
  import opened Store
  import opened Operations
  import opened Invariants
  import opened Confirmation
  import opened ConfirmationEffects
  import opened Replies

  // ------------------------------------------------------------ approve

  /** An approval of this row, by a caller in its event, of a YES that is not approved yet. */
  predicate IsApprovable(s: State, a: Approval) {
    && a.id in s.rows && a.active == Some(s.rows[a.id].event) && a.approve
    && s.rows[a.id].choice == Some(YES) && s.rows[a.id].status != APPROVED
  }

  predicate IsRejectable(s: State, a: Approval) {
    a.id in s.rows && a.active == Some(s.rows[a.id].event) && !a.approve && s.rows[a.id].status != REJECTED
  }

  predicate HasName(r: Row) {
    r.firstName != "" && r.lastName != ""
  }

  /** How an approve call ends, for every reason it can end for. */
  lemma ApprovalOutcomes(s: State, a: Approval)
    ensures var o := Approve(s, a).outcome;
      && (o == Threw(NotFound) <==> a.id !in s.rows)
      && (a.id in s.rows ==>
            var r := s.rows[a.id];
            var here := a.active == Some(r.event);
            && (o == Threw(EventMismatch) <==> !here)
            && (o == Threw(RsvpNotSubmitted) <==> here && a.approve && r.choice == None)
            && (o == Threw(RsvpNotAccepted) <==> here && a.approve && (r.choice == Some(NO) || r.choice == Some(MAYBE)))
            && (o == Threw(AlreadyApproved) <==> here && a.approve && r.choice == Some(YES) && r.status == APPROVED)
            && (o == Threw(AlreadyRejected) <==> here && !a.approve && r.status == REJECTED)
            && (o == Threw(GrantFailed) <==> IsApprovable(s, a) && r.guest.Some? && !a.grantSucceeds)
            && (o == Threw(MissingGuestName) <==> IsApprovable(s, a) && r.guest.None? && !HasName(r))
            && (o == Threw(MissingPendingContact) <==>
                  IsApprovable(s, a) && r.guest.None? && HasName(r) && r.pendingId.None?)
            && (o == Done <==> IsRejectable(s, a)
                               || (IsApprovable(s, a) && r.guest.Some? && a.grantSucceeds)
                               || (IsApprovable(s, a) && r.guest.None? && HasName(r) && r.pendingId.Some?)))
  {
    if a.id in s.rows {
      match s.rows[a.id].choice {
        case None =>
        case Some(YES) =>
        case Some(NO) =>
        case Some(MAYBE) =>
      }
    }
  }

  /** Nothing happens unless the row is approvable, with its grant, or rejectable. */
  lemma ApprovalRefused(s: State, a: Approval)
    ensures !IsRejectable(s, a) && !(IsApprovable(s, a) && (s.rows[a.id].guest.Some? ==> a.grantSucceeds)) ==>
      Approve(s, a).state == s
  {
  }

  /** The approval itself: status and approver in the row, and the seat, if one was given, in the log. */
  function Stamped(s: State, a: Approval): State
    requires a.id in s.rows
  {
    s.(rows := s.rows[a.id := s.rows[a.id].(status := APPROVED, approvedBy := a.actor)],
       log := s.log + if a.seat.Some? then [ApprovedWithSeat(a.id, a.seat.value)] else [])
  }

  /** The event holds tickets back until a time that lies ahead. */
  predicate HoldsTickets(s: State, event: EventId) {
    && event in s.settings && s.settings[event].scheduleRelease
    && s.settings[event].releaseAt.Some? && s.settings[event].releaseAt.value > s.now
  }

  lemma StampedIsMarked(s: State, a: Approval)
    requires a.id in s.rows
    ensures MarkApproved(s, a) == Stamped(s, a)
  {
    assert s.log + [] == s.log;
  }

  /**
   A complete approval of an unlinked row: one ticket job at the release time if tickets are held back; else, with a
   seat, the link with that seat under a new token and its reminders; else exactly one seat request.
   */
  lemma ApprovalDelivers(s: State, a: Approval)
    requires IsApprovable(s, a) && s.rows[a.id].guest.None? && HasName(s.rows[a.id])
    requires s.rows[a.id].pendingId.Some? && s.rows[a.id].payload.Some?
    ensures Approve(s, a).outcome == Done
    ensures var r, m, t := s.rows[a.id], Stamped(s, a), Approve(s, a).state;
      if HoldsTickets(s, r.event) then
        t == m.(jobs := s.jobs + {TicketJob(a.id, a.seat, a.locale, s.settings[r.event].releaseAt.value)})
      else if a.seat.Some? then
        var p := InLanguage(r.payload.value, a.locale);
        t == m.(rows := m.rows[a.id := m.rows[a.id].(pendingId := Some(s.nextToken), payload := Some(p),
                                                    sentAt := Some(s.now))],
                cache := s.cache[s.nextToken := p],
                nextToken := s.nextToken + 1,
                log := m.log + [ConfirmationSent(a.id, s.nextToken, a.seat)] + Expected(s, a.id, r.event))
      else t == m.(log := m.log + [SeatRequested(a.id)])
  {
    var m := Stamped(s, a);
    StampedIsMarked(s, a);
    FirstSend(m, a.id, a.seat, a.locale);
    SeatRequest(m, a.id);
    SameReminders(s, m, a.id, s.rows[a.id].event);
    hide SendFirst;
    hide RequestSeat;
    hide Expected;
    assert ApprovalRefusal(s, a).None?;
  }

  lemma SameReminders(s: State, t: State, id: Id, event: EventId)
    requires t.settings == s.settings && t.now == s.now && t.config == s.config
    ensures Expected(t, id, event) == Expected(s, id, event)
  {
  }

  /** A linked row is only stamped; its guest already has access. */
  lemma ApprovalOfGuest(s: State, a: Approval)
    requires IsApprovable(s, a) && s.rows[a.id].guest.Some? && a.grantSucceeds
    ensures Approve(s, a) == Answer(Stamped(s, a), Done)
  {
    StampedIsMarked(s, a);
  }

  /** An incomplete row is stamped although the call fails. */
  lemma ApprovalOfIncomplete(s: State, a: Approval)
    requires IsApprovable(s, a) && s.rows[a.id].guest.None?
    requires !HasName(s.rows[a.id]) || s.rows[a.id].pendingId.None?
    ensures Approve(s, a)
         == Answer(Stamped(s, a), Threw(if HasName(s.rows[a.id]) then MissingPendingContact else MissingGuestName))
  {
    StampedIsMarked(s, a);
  }

  /** A rejection drops the contact from row and cache and leaves everything else. */
  lemma RejectionDrops(s: State, a: Approval)
    requires IsRejectable(s, a)
    ensures var r := s.rows[a.id];
      Approve(s, a) == Answer(
        s.(rows := s.rows[a.id := r.(pendingId := None, payload := None, status := REJECTED, approvedBy := a.actor)],
           cache := s.cache - if r.pendingId.Some? then {r.pendingId.value} else {}),
        Done)
  {
    assert s.cache - {} == s.cache;
  }

  // ------------------------------------------------------------ approved at once

  /** The table of approval modes. */
  predicate ModeApproves(s: State, event: EventId, kind: Kind) {
    event in s.settings &&
    match s.settings[event].approvalMode
    case AUTO => true
    case AUTO_PUBLIC_ONLY => kind == PUBLIC
    case AUTO_INVITE_ONLY => kind == PRIVATE
    case MANUAL => false
  }

  /** What matters of a row when its approval follows in the same call. */
  lemma ApprovedRow(s: State, a: Approval)
    requires a.id in s.rows && a.approve && a.seat.None?
    ensures var r, t := s.rows[a.id], Approve(s, a).state;
      && t.rows == s.rows[a.id := t.rows[a.id]] && t.cache == s.cache
      && t.rows[a.id] == if IsApprovable(s, a) && (r.guest.Some? ==> a.grantSucceeds)
                         then r.(status := APPROVED, approvedBy := a.actor) else r
  {
    assert s.rows[a.id := s.rows[a.id]] == s.rows;
  }

  /** The row a reply commits. */
  lemma CommittedReply(s: State, call: ReplyCall)
    requires StoreInv(s) && ReplyRefusal(s, call).None?
    ensures var r, t := s.rows[call.id], ReplyCommit(s, call);
      && call.id in t.rows && t.settings == s.settings && t.now == s.now
      && var u := t.rows[call.id];
      && u == r.(choice := Some(call.choice), rsvpAt := Some(s.now), status := u.status,
                 firstName := u.firstName, lastName := u.lastName, pendingId := u.pendingId, payload := u.payload)
      && u.status == (if call.choice == NO then DECLINED
                      else if call.choice == MAYBE then PENDING
                      else if r.status == APPROVAL_STAGED then APPROVAL_STAGED else ACCEPTED)
      && u.firstName == (if call.details.Some? && call.details.value.firstName.Some?
                         then call.details.value.firstName.value else r.firstName)
      && u.lastName == (if call.details.Some? && call.details.value.lastName.Some?
                        then call.details.value.lastName.value else r.lastName)
  {
    IdIsOld(s, call.id);
    var rs := AcceptedChildren(PRIVATE, s.rows[call.id].event, call.id, AllowedPlusOnes(s.rows[call.id], call), s.now);
    InsertAllKeepsOld(Put(s, call.id, RepliedRow(s, call)), rs, call.id);
    hide InsertAll;
    hide AcceptedChildren;
    hide AllowedPlusOnes;
    hide Sound;
  }

  /** A YES that the row's own flag or the event's mode approves, and that has an inviter to approve it. */
  predicate ApprovedByReply(s: State, call: ReplyCall)
    requires call.id in s.rows
  {
    var r := s.rows[call.id];
    && call.choice == YES && r.status != APPROVAL_STAGED
    && (r.autoApprove || ModeApproves(s, r.event, r.kind))
    && r.inviter.Some? && (r.guest.Some? ==> call.grantSucceeds)
  }

  /**
   After a reply that is not refused: a NO is declined, a MAYBE pending, a staged YES stays staged; any other YES is
   APPROVED by the row's inviter if and only if the row's flag or the table of modes says so, and else ACCEPTED.
   */
  lemma ReplyDecides(s: State, call: ReplyCall)
    requires StoreInv(s) && ReplyRefusal(s, call).None?
    ensures var r, t := s.rows[call.id], Reply(s, call).state;
      && call.id in t.rows
      && var u := t.rows[call.id];
      && u.choice == Some(call.choice) && u.rsvpAt == Some(s.now)
      && u.guest == r.guest && u.inviter == r.inviter && u.event == r.event && u.parent == r.parent
      && u.status == (if call.choice == NO then DECLINED
                      else if call.choice == MAYBE then PENDING
                      else if r.status == APPROVAL_STAGED then APPROVAL_STAGED
                      else if ApprovedByReply(s, call) then APPROVED else ACCEPTED)
      && u.approvedBy == (if ApprovedByReply(s, call) then r.inviter else r.approvedBy)
      && u.firstName == (if call.details.Some? && call.details.value.firstName.Some?
                         then call.details.value.firstName.value else r.firstName)
      && u.lastName == (if call.details.Some? && call.details.value.lastName.Some?
                        then call.details.value.lastName.value else r.lastName)
  {
    hide Approve;
    hide ReplyCommit;
    hide Sound;
    CommittedReply(s, call);
    var r, t := s.rows[call.id], ReplyCommit(s, call);
    if ReplyAutoApproves(s, call) && r.inviter.Some? {
      ApprovedRow(t, AutoApproval(call.id, r.event, r.inviter.value, call.grantSucceeds));
    }
  }

  /** When the approval of a reply cannot start for want of an inviter. */
  lemma ReplyWithoutInviter(s: State, call: ReplyCall)
    requires StoreInv(s) && ReplyRefusal(s, call).None?
    ensures var r := s.rows[call.id];
      Reply(s, call).outcome == Threw(AutoApprovalIncomplete)
      <==> call.choice == YES && r.status != APPROVAL_STAGED && r.inviter.None?
           && (r.autoApprove || ModeApproves(s, r.event, r.kind))
  {
    hide ReplyCommit;
    hide Sound;
  }

  /** A reply approved at once asks for a seat, or leaves a ticket job when tickets are held back. */
  lemma ReplyDelivers(s: State, call: ReplyCall)
    requires StoreInv(s) && ReplyRefusal(s, call).None? && ApprovedByReply(s, call) && s.rows[call.id].guest.None?
    requires HasName(ReplyCommit(s, call).rows[call.id])
    ensures var event, t := s.rows[call.id].event, Reply(s, call).state;
      && Reply(s, call).outcome == Done
      && (if HoldsTickets(s, event) then
            t.log == s.log
            && t.jobs == s.jobs + {TicketJob(call.id, None, None, s.settings[event].releaseAt.value)}
          else t.jobs == s.jobs && t.log == s.log + [SeatRequested(call.id)])
  {
    hide Approve;
    hide Sound;
    CommittedReply(s, call);
    ReplyContact(s, call);
    hide ReplyCommit;
    var r, t := s.rows[call.id], ReplyCommit(s, call);
    var a := AutoApproval(call.id, r.event, r.inviter.value, call.grantSucceeds);
    ApprovalDelivers(t, a);
    assert s.log + [] == s.log;
  }

  lemma ReplyContact(s: State, call: ReplyCall)
    requires StoreInv(s) && ReplyRefusal(s, call).None? && call.choice == YES
    ensures var t := ReplyCommit(s, call);
      && call.id in t.rows && t.rows[call.id].pendingId.Some? && t.rows[call.id].payload.Some?
      && t.log == s.log && t.jobs == s.jobs
      && t.rows[call.id].payload.value.locale == call.locale && t.rows[call.id].payload.value.seat.None?
  {
    hide InsertAll;
    hide Sound;
    InsertedElsewhere(Put(s, call.id, RepliedRow(s, call)),
      AcceptedChildren(PRIVATE, s.rows[call.id].event, call.id, AllowedPlusOnes(s.rows[call.id], call), s.now));
  }

  lemma InsertedElsewhere(s: State, rs: seq<Row>)
    ensures var t := InsertAll(s, rs);
      t.log == s.log && t.jobs == s.jobs && t.settings == s.settings && t.now == s.now
  {
  }

  // ------------------------------------------------------------ public RSVPs

  /** The invitee of a public RSVP, column by column; approved at once exactly in modes AUTO and AUTO_PUBLIC_ONLY. */
  lemma PublicDecides(s: State, call: PublicCall)
    requires PublicRefusal(call).None?
    ensures var t := PublicRsvp(s, call).state;
      && s.nextId in t.rows
      && var u, auto := t.rows[s.nextId], ModeApproves(s, call.event, PUBLIC);
      && u == Row(PUBLIC, call.event, call.firstName, call.lastName, auto,
                  if call.event in s.settings then s.settings[call.event].endsAt else None,
                  if auto then APPROVED else ACCEPTED, Some(YES), Some(s.now), None, None,
                  if auto then Some(SYSTEM_ACTOR) else None, None, |call.plusOnes|,
                  Some(s.nextToken), u.payload, None, 0)
      && u.payload.Some? && u.payload.value.locale == call.locale && u.payload.value.seat.None?
  {
    hide Approve;
    CommittedPublic(s, call);
    hide PublicCommit;
    if PublicRow(s, call).autoApprove {
      ApprovedRow(PublicCommit(s, call), AutoApproval(s.nextId, call.event, SYSTEM_ACTOR, true));
    }
  }

  /** A public RSVP approved at once asks for a seat, or leaves a ticket job; any other sends nothing. */
  lemma PublicDelivers(s: State, call: PublicCall)
    requires PublicRefusal(call).None? && call.firstName != "" && call.lastName != ""
    ensures var t := PublicRsvp(s, call).state;
      && PublicRsvp(s, call).outcome == Done
      && (if !ModeApproves(s, call.event, PUBLIC) then t.log == s.log && t.jobs == s.jobs
          else if HoldsTickets(s, call.event) then
            && t.log == s.log
            && t.jobs == s.jobs + {TicketJob(s.nextId, None, None, s.settings[call.event].releaseAt.value)}
          else t.jobs == s.jobs && t.log == s.log + [SeatRequested(s.nextId)])
  {
    hide Approve;
    CommittedPublic(s, call);
    PublicSendsNothingYet(s, call);
    hide PublicCommit;
    hide PublicRow;
    assert s.log + [] == s.log;
    if PublicRow(s, call).autoApprove {
      ApprovalDelivers(PublicCommit(s, call), AutoApproval(s.nextId, call.event, SYSTEM_ACTOR, true));
    }
  }

  lemma PublicSendsNothingYet(s: State, call: PublicCall)
    ensures var t := PublicCommit(s, call);
      t.log == s.log && t.jobs == s.jobs && t.settings == s.settings && t.now == s.now
  {
    hide InsertAll;
    hide AcceptedChildren;
    PublicShape(s, call);
    InsertedElsewhere(Insert(s, PublicRow(s, call)),
      AcceptedChildren(PUBLIC, call.event, s.nextId, call.plusOnes, s.now));
    hide PublicRow;
    hide PublicCommit;
    hide IdsFrom;
  }

  lemma CommittedPublic(s: State, call: PublicCall)
    ensures var t := PublicCommit(s, call);
      && s.nextId in t.rows && PublicRow(s, call).autoApprove == ModeApproves(s, call.event, PUBLIC)
      && var u := t.rows[s.nextId];
      && u == Row(PUBLIC, call.event, call.firstName, call.lastName, ModeApproves(s, call.event, PUBLIC),
                  if call.event in s.settings then s.settings[call.event].endsAt else None,
                  ACCEPTED, Some(YES), Some(s.now), None, None, None, None, |call.plusOnes|,
                  Some(s.nextToken), u.payload, None, 0)
      && u.payload.Some? && u.payload.value.locale == call.locale && u.payload.value.seat.None?
  {
    hide PublicRow;
    hide InsertAll;
    hide AcceptedChildren;
    hide PublicCommit;
    hide IdsFrom;
    PublicColumns(s, call);
    PublicShape(s, call);
    var u := Insert(s, PublicRow(s, call));
    Inserted(u, AcceptedChildren(PUBLIC, call.event, s.nextId, call.plusOnes, s.now));
  }

  lemma PublicColumns(s: State, call: PublicCall)
    ensures PublicRow(s, call)
         == Row(PUBLIC, call.event, call.firstName, call.lastName, ModeApproves(s, call.event, PUBLIC),
                if call.event in s.settings then s.settings[call.event].endsAt else None,
                ACCEPTED, Some(YES), Some(s.now), None, None, None, None, |call.plusOnes|, None, None, None, 0)
  {
  }

  // ------------------------------------------------------------ plus-ones

  /**
   Plus-ones of staff, that is of neither the parent's guest nor its inviter, and those of an approved parent whose
   event asks for no approval.
   */
  predicate PlusOneApproved(s: State, call: PlusOneCall)
    requires call.parent.Some? && call.parent.value in s.rows
  {
    var parent := s.rows[call.parent.value];
    || (parent.guest != call.actor.user && parent.inviter != call.actor.user)
    || (parent.status == APPROVED && parent.event in s.settings
        && s.settings[parent.event].requireApprovalForPlusOnes == false)
  }

  lemma CommittedChild(s: State, call: PlusOneCall)
    requires StoreInv(s) && CreatePlusOneRefusal(s, call).None?
    ensures var t, parent := CreatePlusOneCommit(s, call), call.parent.value;
      && s.nextId in t.rows && parent in t.rows && parent < s.nextId
      && PlusOneAutoApproves(s, call) == PlusOneApproved(s, call)
      && t.rows == s.rows[parent := s.rows[parent].(maxInvitees := s.rows[parent].maxInvitees - 1)]
                         [s.nextId := t.rows[s.nextId]]
      && t.rows[s.nextId]
         == Row(PRIVATE, s.rows[parent].event, call.person.firstName, call.person.lastName, false, None,
                if PlusOneApproved(s, call) then ACCEPTED else PENDING,
                if PlusOneApproved(s, call) then Some(YES) else None,
                if PlusOneApproved(s, call) then Some(s.now) else None,
                None, call.actor.user, None, call.parent, 0, Some(s.nextToken),
                Some(Payload(s.nextId, call.person.firstName, call.person.lastName, call.locale, None, [])), None, 0)
      && t.cache == s.cache[s.nextToken := t.rows[s.nextId].payload.value]
      && t.log == s.log && t.jobs == s.jobs && t.settings == s.settings && t.now == s.now
  {
    IdIsOld(s, call.parent.value);
    hide Sound;
  }

  /**
   A createPlusOne that is not refused takes one place and stores the person under the parent, column by column:
   APPROVED with a YES if and only if the caller is staff or the approved parent's event asks for no approval, and
   else PENDING without an answer.
   */
  lemma PlusOneDecides(s: State, call: PlusOneCall)
    requires StoreInv(s) && CreatePlusOneRefusal(s, call).None?
    ensures var t, parent := CreatePlusOne(s, call).state, call.parent.value;
      var auto := PlusOneApproved(s, call);
      && s.nextId in t.rows
      && t.rows == s.rows[parent := s.rows[parent].(maxInvitees := s.rows[parent].maxInvitees - 1)]
                         [s.nextId := t.rows[s.nextId]]
      && t.rows[s.nextId]
         == Row(PRIVATE, s.rows[parent].event, call.person.firstName, call.person.lastName, false, None,
                if auto then APPROVED else PENDING, if auto then Some(YES) else None,
                if auto then Some(s.now) else None, None, call.actor.user,
                if auto then call.actor.user else None, call.parent, 0, Some(s.nextToken),
                Some(Payload(s.nextId, call.person.firstName, call.person.lastName, call.locale, None, [])), None, 0)
      && t.cache == s.cache[s.nextToken := t.rows[s.nextId].payload.value]
  {
    hide Approve;
    hide Sound;
    CommittedChild(s, call);
    hide CreatePlusOneCommit;
    if PlusOneAutoApproves(s, call) {
      ApprovedRow(CreatePlusOneCommit(s, call),
        AutoApproval(s.nextId, call.event.value, call.actor.user.value, true));
    }
  }

  /** One approved at once also asks for a seat, or leaves a ticket job; one that is not sends nothing. */
  lemma PlusOneDelivers(s: State, call: PlusOneCall)
    requires StoreInv(s) && CreatePlusOneRefusal(s, call).None?
    ensures var event, t := s.rows[call.parent.value].event, CreatePlusOne(s, call).state;
      && CreatePlusOne(s, call).outcome == Done
      && (if !PlusOneApproved(s, call) then t.log == s.log && t.jobs == s.jobs
          else if HoldsTickets(s, event) then
            t.log == s.log && t.jobs == s.jobs + {TicketJob(s.nextId, None, None, s.settings[event].releaseAt.value)}
          else t.jobs == s.jobs && t.log == s.log + [SeatRequested(s.nextId)])
  {
    hide Approve;
    hide Sound;
    CommittedChild(s, call);
    ChildIsNamed(s, call);
    hide CreatePlusOneCommit;
    if PlusOneAutoApproves(s, call) {
      ApprovalDelivers(CreatePlusOneCommit(s, call),
        AutoApproval(s.nextId, call.event.value, call.actor.user.value, true));
    }
    assert s.log + [] == s.log;
  }

  lemma ChildIsNamed(s: State, call: PlusOneCall)
    requires CreatePlusOneRefusal(s, call).None?
    ensures call.person.firstName != "" && call.person.lastName != ""
    ensures call.event == Some(s.rows[call.parent.value].event)
  {
  }
}
