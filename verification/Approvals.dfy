/**
 Staging and approval across calls: stage and unstage are inverse, staging
 commutes with an acceptance, automatic approvals never trip approve's own
 checks, and what a rejection does for good.
 */
module Approvals {
  import opened Prelude
  import opened Store
  import opened Confirmation
  import opened Operations
  import opened System
  import opened Invariants
  import opened Evolution
  import opened SeatFirst
  import opened Replies

  // ----------------------------------------------------------------- staging

  /** A batch is staged or unstaged as a whole or not at all. */
  lemma StageIsAllOrNothing(s: State, ids: set<Id>, staged: bool, active: Option<EventId>)
    ensures var a := Stage(s, ids, staged, active);
      && (a.outcome == Done <==>
            forall id | id in ids ::
              && id in s.rows && active == Some(s.rows[id].event)
              && if staged then s.rows[id].status == PENDING || s.rows[id].status == ACCEPTED
                 else s.rows[id].status == APPROVAL_STAGED)
      && (a.outcome != Done ==> a.state == s)
  {
  }

  /**
   Staging and then unstaging a batch gives back the very same store exactly when
   ACCEPTED goes with a YES throughout the batch.
   */
  lemma StageThenUnstage(s: State, ids: set<Id>, active: Option<EventId>)
    requires Stage(s, ids, true, active).outcome == Done
    ensures var t := Stage(Stage(s, ids, true, active).state, ids, false, active);
      && t.outcome == Done
      && (t.state == s <==> forall id | id in ids :: (s.rows[id].status.ACCEPTED? <==> s.rows[id].choice == Some(YES)))
  {
  }

  /** In every reachable store it therefore always does. */
  lemma ReachableStageThenUnstage(s: State, ids: set<Id>, active: Option<EventId>)
    requires StoreInv(s) && Stage(s, ids, true, active).outcome == Done
    ensures Stage(Stage(s, ids, true, active).state, ids, false, active) == Answer(s, Done)
  {
  }

  lemma StagePut(rows: Rows, ids: set<Id>, id: Id, r: Row)
    ensures StageCommit(rows[id := r], ids, true)
         == StageCommit(rows, ids, true)[id := if id in ids then StagedRow(r, true) else r]
  {
  }

  lemma StageInsert(rows: Rows, more: Rows, ids: set<Id>)
    requires more.Keys !! ids
    ensures StageCommit(rows + more, ids, true) == StageCommit(rows, ids, true) + more
  {
  }

  /** Without automatic approval it does not matter whether the guest's YES or the staging comes first. */
  lemma StagingCommutesWithYes(s: State, ids: set<Id>, active: Option<EventId>, call: ReplyCall)
    requires StoreInv(s)
    requires call.choice.YES? && ReplyRefusal(s, call).None? && !ReplyAutoApproves(s, call)
    requires Stage(s, ids, true, active).outcome == Done
    ensures var a := Stage(Reply(s, call).state, ids, true, active);
      var b := Reply(Stage(s, ids, true, active).state, call);
      a.outcome == Done && b.outcome == Done && a.state == b.state
  {
    hide Sound;
    StageIsAllOrNothing(s, ids, true, active);
    RowIsOk(s, call.id);
    TheseAreOld(s, ids);
    CommitsCommute(s, ids, call);
    StageAfterReply(s, ids, active, call);
  }

  lemma CommitsCommute(s: State, ids: set<Id>, call: ReplyCall)
    requires call.choice.YES? && ReplyRefusal(s, call).None? && call.id < s.nextId
    requires !ReplyAutoApproves(s, call)
    requires s.rows[call.id].status.PENDING? || call.id !in ids
    requires forall id | id in ids :: id < s.nextId
    ensures var t := s.(rows := StageCommit(s.rows, ids, true));
      && ReplyRefusal(t, call).None? && !ReplyAutoApproves(t, call)
      && ReplyCommit(t, call)
         == ReplyCommit(s, call).(rows := StageCommit(ReplyCommit(s, call).rows, ids, true))
  {
    var t := s.(rows := StageCommit(s.rows, ids, true));
    var r, replied := s.rows[call.id], RepliedRow(s, call);
    ReplySeesStagedAlike(s, ids, call);
    ReplyShape(s, call);
    ReplyShape(t, call);
    var allowed := AllowedPlusOnes(r, call);
    var rs := AcceptedChildren(PRIVATE, r.event, call.id, allowed, s.now);
    var more := map i | i in NewIds(s.nextId, |rs|) :: RowFor(rs, s.nextId, i);
    var p := Payload(call.id, replied.firstName, replied.lastName, call.locale, None, IdsFrom(s.nextId, |allowed|));
    var anchored := replied.(pendingId := Some(s.nextToken), payload := Some(p));
    var put := s.rows[call.id := replied];
    StagePut(s.rows, ids, call.id, replied);
    StageInsert(put, more, ids);
    StagePut(put + more, ids, call.id, anchored);
  }

  /** The reply turns a PENDING row ACCEPTED, so what could be staged before it can be staged after it. */
  lemma StageAfterReply(s: State, ids: set<Id>, active: Option<EventId>, call: ReplyCall)
    requires call.choice.YES? && ReplyRefusal(s, call).None? && !ReplyAutoApproves(s, call)
    requires call.id < s.nextId && (forall id | id in ids :: id < s.nextId)
    requires s.rows[call.id].status.PENDING? || call.id !in ids
    requires Stage(s, ids, true, active).outcome == Done
    ensures var t := ReplyCommit(s, call);
      Stage(t, ids, true, active) == Answer(t.(rows := StageCommit(t.rows, ids, true)), Done)
  {
  }

  lemma TheseAreOld(s: State, ids: set<Id>)
    requires StoreInv(s) && ids <= s.rows.Keys
    ensures forall id | id in ids :: id < s.nextId
    ensures forall id | id in s.rows :: id < s.nextId
  {
  }

  lemma ReplySeesStagedAlike(s: State, ids: set<Id>, call: ReplyCall)
    requires call.choice.YES? && ReplyRefusal(s, call).None? && !ReplyAutoApproves(s, call)
    ensures var t := s.(rows := StageCommit(s.rows, ids, true));
      && ReplyRefusal(t, call).None? && !ReplyAutoApproves(t, call)
      && AllowedPlusOnes(t.rows[call.id], call) == AllowedPlusOnes(s.rows[call.id], call)
  {
    var t := s.(rows := StageCommit(s.rows, ids, true));
    assert AllowedPlusOnes(t.rows[call.id], call) == AllowedPlusOnes(s.rows[call.id], call);
  }

  // ------------------------------------------------------ automatic approval

  /** The approval a reply triggers can fail only in the access grant or on an empty name. */
  lemma ReplyAutoApprovalNeverTrips(s: State, call: ReplyCall)
    requires StoreInv(s) && ReplyRefusal(s, call).None? && ReplyAutoApproves(s, call)
    requires s.rows[call.id].inviter.Some?
    ensures var r := RepliedRow(s, call);
      Reply(s, call).outcome
      == if r.guest.Some? then (if call.grantSucceeds then Done else Threw(GrantFailed))
         else if r.firstName == "" || r.lastName == "" then Threw(MissingGuestName)
         else Done
  {
    TheseAreOld(s, {call.id});
    var t := ReplyCommit(s, call);
    assert t.rows[call.id].choice == Some(YES) && t.rows[call.id].pendingId.Some?;
    assert t.rows[call.id].status == ACCEPTED;
  }

  /** The approval of a plus-one created by staff, or under an approved parent that needs none, always goes through. */
  lemma PlusOneAutoApprovalNeverTrips(s: State, call: PlusOneCall)
    requires CreatePlusOneRefusal(s, call).None?
    ensures CreatePlusOne(s, call).outcome == Done
  {
  }

  /** The approval of a public RSVP can fail only on an empty name. */
  lemma PublicAutoApprovalNeverTrips(s: State, call: PublicCall)
    requires PublicRefusal(call).None?
    ensures PublicRsvp(s, call).outcome
         == if PublicRow(s, call).autoApprove && (call.firstName == "" || call.lastName == "")
            then Threw(MissingGuestName) else Done
  {
  }

  // ------------------------------------------------- failing after writing

  /** The checks that come after the approval was stored: an unlinked row lacks a name or its contact. */
  predicate Incomplete(r: Row) {
    r.guest.None? && (r.firstName == "" || r.lastName == "" || r.pendingId.None?)
  }

  /**
   An approve call that throws has written if and only if it passed the first checks and the row is incomplete.
   Then exactly the approval (and, if one was given, its seat) is stored, and a second attempt is refused.
   */
  lemma ApprovalThrowsAfterWriting(s: State, a: Approval)
    ensures Approve(s, a).outcome.Threw? && Approve(s, a).state != s
       <==> a.approve && ApprovalRefusal(s, a).None? && Incomplete(s.rows[a.id])
    ensures a.approve && ApprovalRefusal(s, a).None? && Incomplete(s.rows[a.id]) ==>
      && Approve(s, a).state == MarkApproved(s, a)
      && Approve(s, a).outcome == (if s.rows[a.id].firstName == "" || s.rows[a.id].lastName == ""
                                   then Threw(MissingGuestName) else Threw(MissingPendingContact))
      && Approve(Approve(s, a).state, a).outcome == Threw(AlreadyApproved)
  {
    if a.approve && ApprovalRefusal(s, a).None? {
      assert MarkApproved(s, a).rows[a.id].status.APPROVED? && !s.rows[a.id].status.APPROVED?;
    }
  }

  // ------------------------------------------------ who can still get a link

  /** Some later run sends invitation `id` a link. */
  ghost predicate GetsALink(s: State, id: Id) {
    exists steps, k :: LinkAt(s, steps, k, id)
  }

  ghost predicate LinkAt(s: State, steps: seq<Step>, k: nat, id: Id) {
    var log := Run(s, steps).log;
    |s.log| <= k < |log| && log[k].ConfirmationSent? && log[k].id == id
  }

  /** A reserved seat sends an actionable, unlinked row with a contact its link. */
  lemma SeatSendsTheLink(s: State, id: Id, seat: Seat)
    requires MaySendFirst(s, id)
    ensures LinkAt(s, [ReservedStep(id, seat)], |s.log| + 1, id)
  {
    var noted := Emit(s, SeatReserved(id, seat));
    SendFirstEffect(noted, id, Some(seat), None);
    var t := SendFirst(noted, id, Some(seat), None);
    assert t.log[|s.log| + 1] == (noted.log + [ConfirmationSent(id, noted.nextToken, Some(seat))])[|s.log| + 1];
    RunOne(s, ReservedStep(id, seat));
  }

  lemma RunOne(s: State, step: Step)
    ensures Run(s, [step]) == Apply(s, step)
  {
    hide Apply;
    assert [step][1..] == [];
    assert Run(Apply(s, step), []) == Apply(s, step);
  }

  /** An explicit approval makes an unlinked YES row with a contact actionable, even where it throws. */
  lemma ApprovalMakesActionable(s: State, id: Id, a: Approval)
    requires id in s.rows && s.rows[id].guest.None? && s.rows[id].choice == Some(YES)
    requires s.rows[id].pendingId.Some? && s.rows[id].payload.Some? && !s.rows[id].status.APPROVED?
    requires a == Approval(id, true, None, None, None, Some(s.rows[id].event), true)
    ensures MaySendFirst(Approve(s, a).state, id) && s.log <= Approve(s, a).state.log
  {
    SeatlessApproval(s, a);
  }

  lemma ContactGetsALink(s: State, id: Id)
    requires id in s.rows && s.rows[id].guest.None? && s.rows[id].choice == Some(YES)
    requires s.rows[id].pendingId.Some? && s.rows[id].payload.Some?
    ensures GetsALink(s, id)
  {
    hide Run;
    hide Approve;
    if MaySendFirst(s, id) {
      SeatSendsTheLink(s, id, 0);
    } else {
      var a := Approval(id, true, None, None, None, Some(s.rows[id].event), true);
      ApprovalMakesActionable(s, id, a);
      var t := Approve(s, a).state;
      RunOne(s, ApproveStep(a));
      SeatSendsTheLink(t, id, 0);
      RunConcat(s, [ApproveStep(a)], [ReservedStep(id, 0)]);
      assert LinkAt(s, [ApproveStep(a)] + [ReservedStep(id, 0)], |t.log| + 1, id);
    }
  }

  /**
   In a reachable store an unlinked acceptance can still get a link in some run if and only if it has a contact;
   so one that was rejected, or that a reply or a public RSVP created as a plus-one, never can.
   */
  lemma LinkExactlyWithContact(s: State, id: Id)
    requires StoreInv(s) && id in s.rows && s.rows[id].guest.None? && s.rows[id].choice == Some(YES)
    ensures GetsALink(s, id) <==> s.rows[id].pendingId.Some?
  {
    hide Run;
    hide Sound;
    RowIsOk(s, id);
    IdIsOld(s, id);
    if s.rows[id].pendingId.Some? {
      ContactGetsALink(s, id);
    } else {
      forall steps, k ensures !LinkAt(s, steps, k, id) {
        if LinkAt(s, steps, k, id) {
          NoContactNoLink(s, steps, id, k);
        }
      }
    }
  }

  // -------------------------------------------- the rows that never get one

  /** Rejecting an acceptance is final. */
  lemma RejectionIsFinal(s: State, a: Approval)
    requires StoreInv(s) && !a.approve && ApprovalRefusal(s, a).None? && s.rows[a.id].choice == Some(YES)
    ensures !GetsALink(Approve(s, a).state, a.id)
  {
    var t := Approve(s, a).state;
    TheseAreOld(s, {a.id});
    assert HasNoContact(t.rows[a.id]);
    NeverLinked(t, a.id);
  }

  lemma NeverLinked(s: State, id: Id)
    requires id < s.nextId && id in s.rows && HasNoContact(s.rows[id])
    ensures !GetsALink(s, id)
  {
    hide Run;
    forall steps, k ensures !LinkAt(s, steps, k, id) {
      if LinkAt(s, steps, k, id) {
        NoContactNoLink(s, steps, id, k);
      }
    }
  }

  /** An approval of some other row leaves a plus-one without contact. */
  lemma ApprovalLeavesChild(s: State, a: Approval, child: Id)
    requires child < s.nextId && child in s.rows && child != a.id && HasNoContact(s.rows[child])
    ensures var t := Approve(s, a).state;
      child < t.nextId && child in t.rows && HasNoContact(t.rows[child])
  {
    ApproveEvolves(s, a);
    EvolvesLasts(s, Approve(s, a).state);
    ApproveKeepsRows(s, a);
  }

  lemma ApproveKeepsRows(s: State, a: Approval)
    ensures s.rows.Keys <= Approve(s, a).state.rows.Keys
  {
  }

  lemma ReplyChildHasNoContact(s: State, call: ReplyCall, child: Id)
    requires StoreInv(s) && ReplyRefusal(s, call).None?
    requires child in NewIds(s.nextId, |AllowedPlusOnes(s.rows[call.id], call)|)
    ensures var t := ReplyCommit(s, call);
      child != call.id && child < t.nextId && child in t.rows && HasNoContact(t.rows[child])
  {
    TheseAreOld(s, {call.id});
  }

  /** The plus-ones a reply creates, approved at once or not, never get a link of their own. */
  lemma ReplyPlusOnesGetNoLink(s: State, call: ReplyCall, child: Id)
    requires StoreInv(s) && ReplyRefusal(s, call).None?
    requires child in NewIds(s.nextId, |AllowedPlusOnes(s.rows[call.id], call)|)
    ensures !GetsALink(Reply(s, call).state, child)
  {
    hide ReplyCommit;
    hide Approve;
    hide AllowedPlusOnes;
    hide Sound;
    hide GetsALink;
    ReplyChildHasNoContact(s, call, child);
    var r, t := s.rows[call.id], ReplyCommit(s, call);
    if ReplyAutoApproves(s, call) && r.inviter.Some? {
      ApprovalLeavesChild(t, AutoApproval(call.id, r.event, r.inviter.value, call.grantSucceeds), child);
    }
    NeverLinked(Reply(s, call).state, child);
  }

  lemma PublicChildHasNoContact(s: State, call: PublicCall, child: Id)
    requires child in NewIds(s.nextId + 1, |call.plusOnes|)
    ensures var t := PublicCommit(s, call);
      child != s.nextId && child < t.nextId && child in t.rows && HasNoContact(t.rows[child])
  {
  }

  /** Nor do those a public RSVP brings. */
  lemma PublicPlusOnesGetNoLink(s: State, call: PublicCall, child: Id)
    requires PublicRefusal(call).None? && child in NewIds(s.nextId + 1, |call.plusOnes|)
    ensures !GetsALink(PublicRsvp(s, call).state, child)
  {
    hide PublicCommit;
    hide Approve;
    hide GetsALink;
    PublicChildHasNoContact(s, call, child);
    if PublicRow(s, call).autoApprove {
      ApprovalLeavesChild(PublicCommit(s, call), AutoApproval(s.nextId, call.event, SYSTEM_ACTOR, true), child);
    }
    NeverLinked(PublicRsvp(s, call).state, child);
  }
}
