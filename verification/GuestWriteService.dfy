/** `GuestWriteService` as it runs, proved against `Operations`. */
module GuestWriteService {
  import opened Prelude
  import opened Store
  import opened Forest
  import opened Rsvp
  import opened Operations
  import opened Invariants
  import opened Deletion
  import opened Platform
  import opened AdminWriteService

  class GuestWriteService {
    const db: Backend
    const admin: AdminWriteService

    constructor (admin: AdminWriteService)
      requires admin.Valid()
      ensures Valid() && this.admin == admin
    {
      this.db, this.admin := admin.db, admin;
    }

    ghost predicate Valid() {
      admin.Valid() && admin.db == db
    }

    // ----------------------------------------------------------------- reply

    method Reply(call: ReplyCall) returns (outcome: Outcome)
      requires Valid()
      modifies db
      ensures Answer(db.View(), outcome) == Operations.Reply(old(db.View()), call)
    {
      hide ReplyCommit;
      hide Operations.Approve;
      if call.id !in db.rows {
        return Threw(NotFound);
      }
      var invitation := db.rows[call.id];
      var mode := if invitation.event in db.settings then Some(db.settings[invitation.event].approvalMode) else None;
      var autoApprove := invitation.autoApprove || ShouldAutoApprove(mode, invitation.kind);
      if invitation.choice == Some(YES) || invitation.choice == Some(NO) {
        return Threw(AlreadyAnswered);
      }
      if call.choice.YES? {
        if call.details.None? {
          return Threw(MissingContactDetails);
        }
        if !HasValidPhone(call.details.value.phones) {
          return Threw(MissingContactMethod);
        }
      }
      var brought := if call.details.Some? then call.details.value.plusOnes else [];
      var allowed := if call.choice.YES? then brought[..Sliced(|brought|, invitation.maxInvitees)] else [];
      assert allowed == AllowedPlusOnes(invitation, call);
      for i := 0 to |allowed|
        invariant forall k | 0 <= k < i :: CompletePlusOne(allowed[k])
      {
        assert CompletePlusOne(allowed[i]) || ReplyRefusal(db.View(), call) == Some(InvalidInput);
        if allowed[i].firstName == "" || allowed[i].lastName == "" {
          return Threw(InvalidInput);
        }
        if !allowed[i].hasAge {
          return Threw(InvalidInput);
        }
      }
      StoreReply(call, invitation, allowed);
      if call.choice.YES? && autoApprove && !invitation.status.APPROVAL_STAGED? {
        if invitation.inviter.None? {
          return Threw(AutoApprovalIncomplete);
        }
        outcome := admin.Approve(
          Approval(call.id, true, invitation.inviter, None, None, Some(invitation.event), call.grantSucceeds));
        return;
      }
      outcome := Done;
    }

    /** The transaction: own row, plus-ones one by one, then the pending contact. */
    method StoreReply(call: ReplyCall, invitation: Row, allowed: seq<PlusOne>)
      requires ReplyRefusal(db.View(), call).None?
      requires invitation == db.rows[call.id] && allowed == AllowedPlusOnes(invitation, call)
      modifies db
      ensures db.View() == ReplyCommit(old(db.View()), call)
    {
      ghost var before := db.View();
      var decision := Decide(invitation.choice, call.choice, call.details.Some?);
      var status := if invitation.status.APPROVAL_STAGED? && decision.newChoice.YES?
        then APPROVAL_STAGED else decision.newStatus;
      var updated := invitation.(choice := Some(decision.newChoice), status := status, rsvpAt := Some(db.now));
      if call.details.Some? {
        updated := updated.(firstName := Or(call.details.value.firstName, invitation.firstName),
                            lastName := Or(call.details.value.lastName, invitation.lastName));
      }
      assert updated == RepliedRow(before, call);
      hide RepliedRow;
      hide AllowedPlusOnes;
      db.Update(call.id, updated);
      var created := CreateChildren(PRIVATE, invitation.event, call.id, allowed);
      if decision.needsContactDetails {
        var pending := Payload(call.id, updated.firstName, updated.lastName, call.locale, None, created);
        var token := db.CacheSet(pending);
        db.Update(call.id, updated.(pendingId := Some(token), payload := Some(pending)));
      }
    }

    /** Accepted plus-ones, created one by one. */
    method CreateChildren(kind: Kind, event: EventId, parent: Id, people: seq<PlusOne>) returns (created: seq<Id>)
      modifies db
      ensures db.View() == InsertAll(old(db.View()), AcceptedChildren(kind, event, parent, people, old(db.now)))
      ensures created == IdsFrom(old(db.nextId), |people|)
      ensures forall id | id in old(db.rows) :: id in db.rows
    {
      hide InsertAll;
      ghost var before := db.View();
      created := [];
      InsertNone(before);
      NoChildren(kind, event, parent, people, db.now);
      for i := 0 to |people|
        invariant db.View() == InsertAll(before, AcceptedChildren(kind, event, parent, people[..i], before.now))
        invariant db.now == before.now
        invariant created == IdsFrom(before.nextId, i)
        invariant forall id | id in before.rows :: id in db.rows
      {
        OneMoreChild(before, kind, event, parent, people, i);
        var id := db.Create(BlankRow(kind, event, people[i].firstName, people[i].lastName).(
          status := ACCEPTED, choice := Some(YES), rsvpAt := Some(db.now), parent := Some(parent)));
        created := created + [id];
      }
      assert people[..|people|] == people;
    }

    // ------------------------------------------------------------- plus-ones

    method EnsureUserCanManageParentInvitation(parent: Id, actor: Actor) returns (standing: Standing)
      ensures standing == StandingOn(db.View(), parent, actor)
    {
      if actor.user.None? {
        return Forbidden(AccessDenied);
      }
      if parent !in db.rows {
        return Forbidden(NotFound);
      }
      var isOwner := db.rows[parent].guest == actor.user;
      var isCreator := db.rows[parent].inviter == actor.user;
      if isOwner || isCreator {
        return OwnerOrCreator;
      }
      if db.rows[parent].event !in actor.staffOf {
        return Forbidden(AccessDenied);
      }
      return Staff;
    }

    method CheckPhones(phones: seq<Phone>) returns (ok: bool)
      ensures ok <==> forall k | 0 <= k < |phones| :: phones[k].complete
    {
      for i := 0 to |phones|
        invariant forall k | 0 <= k < i :: phones[k].complete
      {
        if !phones[i].complete {
          return false;
        }
      }
      return true;
    }

    method CreatePlusOne(call: PlusOneCall) returns (outcome: Outcome)
      requires Valid()
      modifies db
      ensures Answer(db.View(), outcome) == Operations.CreatePlusOne(old(db.View()), call)
    {
      hide CreatePlusOneCommit;
      hide Operations.Approve;
      if call.event.None? || call.parent.None? {
        return Threw(InvalidInput);
      }
      if !CompletePlusOne(call.person) {
        return Threw(InvalidInput);
      }
      var phonesOk := CheckPhones(call.phones);
      if !phonesOk {
        return Threw(InvalidInput);
      }
      var event, parentId := call.event.value, call.parent.value;
      if parentId !in db.rows {
        return Threw(NotFound);
      }
      var parent := db.rows[parentId];
      if parent.event != event {
        return Threw(EventMismatch);
      }
      var standing := EnsureUserCanManageParentInvitation(parentId, call.actor);
      if standing.Forbidden? {
        return Threw(standing.error);
      }
      var staffManaged := standing.Staff?;
      if staffManaged && !call.hasEmail && !HasValidPhone(call.phones) {
        return Threw(MissingContactMethod);
      }
      if parent.maxInvitees <= 0 {
        return Threw(NoCapacity);
      }
      var needsApproval := !(event in db.settings && !db.settings[event].requireApprovalForPlusOnes);
      var autoApprove := staffManaged || (parent.status.APPROVED? && !needsApproval);
      var child := StorePlusOne(call, parent, autoApprove);
      if autoApprove {
        outcome := admin.Approve(Approval(child, true, call.actor.user, None, None, Some(event), true));
        return;
      }
      outcome := Done;
    }

    /** The transaction: take a slot, create the child, anchor its contact. */
    method StorePlusOne(call: PlusOneCall, parent: Row, autoApprove: bool) returns (child: Id)
      requires CreatePlusOneRefusal(db.View(), call).None? && parent == db.rows[call.parent.value]
      requires autoApprove == PlusOneAutoApproves(db.View(), call)
      modifies db
      ensures db.View() == CreatePlusOneCommit(old(db.View()), call)
      ensures child == old(db.nextId)
    {
      hide PlusOneAutoApproves;
      db.Update(call.parent.value, parent.(maxInvitees := parent.maxInvitees - 1));
      var row := BlankRow(PRIVATE, call.event.value, call.person.firstName, call.person.lastName).(
        parent := call.parent,
        inviter := call.actor.user,
        status := if autoApprove then ACCEPTED else PENDING,
        choice := if autoApprove then Some(YES) else None,
        rsvpAt := if autoApprove then Some(db.now) else None);
      child := db.Create(row);
      var pending := Payload(child, call.person.firstName, call.person.lastName, call.locale, None, []);
      var token := db.CacheSet(pending);
      db.Update(child, row.(pendingId := Some(token), payload := Some(pending)));
    }

    method UpdatePlusOne(id: Id, person: PlusOne, phones: seq<Phone>, actor: Actor) returns (outcome: Outcome)
      modifies db
      ensures Answer(db.View(), outcome) == Operations.UpdatePlusOne(old(db.View()), id, person, phones, actor)
    {
      if !CompletePlusOne(person) {
        return Threw(InvalidInput);
      }
      var phonesOk := CheckPhones(phones);
      if !phonesOk {
        return Threw(InvalidInput);
      }
      if id !in db.rows {
        return Threw(NotFound);
      }
      var existing := db.rows[id];
      if existing.parent.None? {
        return Threw(NotAPlusOne);
      }
      var standing := EnsureUserCanManageParentInvitation(existing.parent.value, actor);
      if standing.Forbidden? {
        return Threw(standing.error);
      }
      db.Update(id, existing.(firstName := person.firstName, lastName := person.lastName));
      outcome := Done;
    }

    method DeletePlusOne(id: Id, actor: Actor) returns (outcome: Outcome)
      modifies db
      ensures Answer(db.View(), outcome) == Operations.DeletePlusOne(old(db.View()), id, actor)
    {
      hide Cascade;
      if id !in db.rows {
        return Threw(NotFound);
      }
      var child := db.rows[id];
      if child.parent.None? {
        return Threw(NotAPlusOne);
      }
      var parent := child.parent.value;
      var standing := EnsureUserCanManageParentInvitation(parent, actor);
      if standing.Forbidden? {
        return Threw(standing.error);
      }
      db.CacheDelete(child.pendingId);
      db.Delete({id});
      if parent in db.rows {
        db.Update(parent, db.rows[parent].(maxInvitees := db.rows[parent].maxInvitees + 1));
      }
      if child.guest.Some? {
        db.Send(GuestsDeleted(multiset{child.guest.value}));
      }
      outcome := Done;
    }

    /**
     Deletes the children in whatever order the query returns them.  The result does not depend
     on that order, and each child is still there when its turn comes because rows form a forest.
     */
    method DeleteAllPlusOnes(parentId: Id, actor: Actor) returns (outcome: Outcome)
      requires StoreInv(db.View())
      modifies db
      ensures parentId !in old(db.rows) ==> outcome == Threw(NotFound) && db.View() == old(db.View())
      ensures parentId in old(db.rows) ==>
        forall order | Lists(order, RemovableChildren(old(db.rows), parentId)) ::
          Answer(db.View(), outcome) == Operations.DeleteAllPlusOnes(old(db.View()), parentId, actor, order)
    {
      hide DeleteAllCommit;
      if parentId !in db.rows {
        return Threw(NotFound);
      }
      var standing := EnsureUserCanManageParentInvitation(parentId, actor);
      if standing.Forbidden? {
        return Threw(standing.error);
      }
      outcome := Done;
      RemoveAll(parentId);
    }

    /** The transaction once the caller is known to be allowed. */
    method RemoveAll(parentId: Id)
      requires StoreInv(db.View()) && parentId in db.rows
      modifies db
      ensures forall order | Lists(order, RemovableChildren(old(db.rows), parentId)) ::
        db.View() == DeleteAllCommit(old(db.View()), parentId, GuestsOf(old(db.rows), order))
    {
      hide Cascade;
      hide PendingOf;
      hide Sound;
      hide GuestsOf;
      hide Children;
      ghost var before := db.View();
      ghost var kids := RemovableChildren(db.rows, parentId);
      KidsAreRows(db.rows, parentId);
      var children := db.InSomeOrder(RemovableChildren(db.rows, parentId));
      var guests := RemoveChildren(parentId, children);
      IsStillThere(before, parentId, kids);
      ListedCount(children, kids);
      db.Update(parentId, db.rows[parentId].(maxInvitees := db.rows[parentId].maxInvitees + |children|));
      forall order | Lists(order, kids) ensures GuestsOf(before.rows, order) == guests {
        SameGuests(before.rows, order, children, kids);
      }
      if guests != multiset{} {
        db.Send(GuestsDeleted(guests));
      }
    }

    method RemoveChildren(parentId: Id, children: seq<Id>) returns (guests: multiset<UserId>)
      requires StoreInv(db.View()) && parentId in db.rows && Lists(children, RemovableChildren(db.rows, parentId))
      modifies db
      ensures var kids := RemovableChildren(old(db.rows), parentId);
        db.View() == old(db.View()).(
          rows := Cascade(old(db.rows), kids), cache := old(db.cache) - PendingOf(old(db.rows), kids))
      ensures guests == GuestsOf(old(db.rows), children)
    {
      hide Sound;
      hide Cascade;
      hide PendingOf;
      hide GuestsOf;
      guests := multiset{};
      ghost var before := db.View();
      ListedCount(children, RemovableChildren(db.rows, parentId));
      NothingTaken(before);
      assert children[..0] == [];
      for i := 0 to |children|
        invariant AsSet(children[..i]) <= before.rows.Keys
        invariant db.View() == before.(
          rows := Cascade(before.rows, AsSet(children[..i])),
          cache := before.cache - PendingOf(before.rows, AsSet(children[..i])))
        invariant guests == GuestsOf(before.rows, children[..i])
      {
        var c := children[i];
        OneMoreTaken(before, parentId, children, i);
        var child := db.rows[c];
        db.CacheDelete(child.pendingId);
        if child.guest.Some? {
          guests := guests + multiset{child.guest.value};
        }
        db.Delete({c});
      }
      assert children[..|children|] == children;
    }

    // ----------------------------------------------------------- public RSVP

    method CreateFromPublicRsvp(call: PublicCall) returns (outcome: Outcome)
      requires Valid()
      modifies db
      ensures Answer(db.View(), outcome) == Operations.PublicRsvp(old(db.View()), call)
    {
      hide Operations.Approve;
      hide PublicCommit;
      if !HasValidPhone(call.phones) {
        return Threw(MissingContactMethod);
      }
      for i := 0 to |call.plusOnes|
        invariant forall k | 0 <= k < i :: CompletePlusOne(call.plusOnes[k])
      {
        if call.plusOnes[i].firstName == "" || call.plusOnes[i].lastName == "" {
          return Threw(InvalidInput);
        }
        if !call.plusOnes[i].hasAge {
          return Threw(InvalidInput);
        }
      }
      var invitee, autoApprove := StorePublicRsvp(call);
      if autoApprove {
        outcome := admin.Approve(Approval(invitee, true, Some(SYSTEM_ACTOR), None, None, Some(call.event), true));
        return;
      }
      outcome := Done;
    }

    /** Invitee and plus-ones in one transaction, the contact anchored after it. */
    method StorePublicRsvp(call: PublicCall) returns (invitee: Id, autoApprove: bool)
      modifies db
      ensures db.View() == PublicCommit(old(db.View()), call)
      ensures invitee == old(db.nextId) && autoApprove == PublicRow(old(db.View()), call).autoApprove
    {
      var settings := if call.event in db.settings then Some(db.settings[call.event]) else None;
      var mode := if settings.Some? then Some(settings.value.approvalMode) else None;
      autoApprove := ShouldAutoApprove(mode, PUBLIC);
      var row := BlankRow(PUBLIC, call.event, call.firstName, call.lastName).(
        endsAt := if settings.Some? then settings.value.endsAt else None,
        autoApprove := autoApprove,
        status := ACCEPTED, choice := Some(YES), rsvpAt := Some(db.now),
        maxInvitees := |call.plusOnes|);
      assert row == PublicRow(db.View(), call);
      hide PublicRow;
      invitee := db.Create(row);
      var created := CreateChildren(PUBLIC, call.event, invitee, call.plusOnes);
      var pending := Payload(invitee, call.firstName, call.lastName, call.locale, None, created);
      var token := db.CacheSet(pending);
      db.Update(invitee, row.(pendingId := Some(token), payload := Some(pending)));
    }
  }

  lemma NoChildren(kind: Kind, event: EventId, parent: Id, people: seq<PlusOne>, now: int)
    ensures AcceptedChildren(kind, event, parent, people[..0], now) == []
  {
  }

  lemma OneMoreChild(s: State, kind: Kind, event: EventId, parent: Id, people: seq<PlusOne>, i: nat)
    requires i < |people|
    ensures Insert(InsertAll(s, AcceptedChildren(kind, event, parent, people[..i], s.now)),
                   AcceptedChild(kind, event, parent, people[i], s.now))
         == InsertAll(s, AcceptedChildren(kind, event, parent, people[..i + 1], s.now))
    ensures InsertAll(s, AcceptedChildren(kind, event, parent, people[..i], s.now)).nextId == s.nextId + i
  {
    var rs := AcceptedChildren(kind, event, parent, people[..i], s.now);
    InsertAllSnoc(s, rs, AcceptedChild(kind, event, parent, people[i], s.now));
    assert AcceptedChildren(kind, event, parent, people[..i + 1], s.now)
        == rs + [AcceptedChild(kind, event, parent, people[i], s.now)];
  }

  lemma NothingTaken(s: State)
    ensures AsSet([]) == {} && GuestsOf(s.rows, []) == multiset{}
    ensures s == s.(rows := Cascade(s.rows, {}), cache := s.cache - PendingOf(s.rows, {}))
  {
    NothingUnderNothing(s.rows);
    assert PendingOf(s.rows, {}) == {};
  }

  /** The next child is untouched by the removals before it, and one more removal adds up. */
  lemma OneMoreTaken(s: State, parent: Id, children: seq<Id>, i: nat)
    requires StoreInv(s) && parent in s.rows && Lists(children, RemovableChildren(s.rows, parent)) && i < |children|
    ensures AsSet(children[..i + 1]) <= s.rows.Keys
    ensures var c, done := children[i], AsSet(children[..i]);
      && AsSet(children[..i + 1]) == done + {c} && done <= s.rows.Keys
      && c in Cascade(s.rows, done) && Cascade(s.rows, done)[c] == s.rows[c]
      && Cascade(Cascade(s.rows, done), {c}) == Cascade(s.rows, done + {c})
      && Forget(s.(cache := s.cache - PendingOf(s.rows, done)), s.rows[c].pendingId).cache
         == s.cache - PendingOf(s.rows, done + {c})
      && GuestsOf(s.rows, children[..i + 1]) == GuestsOf(s.rows, children[..i]) + GuestAt(s.rows, c)
  {
    hide GuestsOf;
    var c, done := children[i], AsSet(children[..i]);
    assert children[..i + 1] == children[..i] + [c];
    assert done <= Children(s.rows, parent);
    SiblingNotUnder(s.rows, s.nextId, parent, c, done);
    CascadeTwice(s.rows, done, {c});
    CacheWithoutOneMore(s, done, c, s.(cache := s.cache - PendingOf(s.rows, done)));
    GuestsOfSnoc(s.rows, children[..i], c);
  }

  lemma KidsAreRows(rows: Rows, parent: Id)
    requires parent in rows
    ensures RemovableChildren(rows, parent) <= rows.Keys && RemovableChildren(rows, parent) <= Children(rows, parent)
  {
  }

  lemma IsStillThere(s: State, parent: Id, kids: set<Id>)
    requires StoreInv(s) && kids <= Children(s.rows, parent) && parent in s.rows
    ensures parent in Cascade(s.rows, kids)
  {
    ParentNotUnderChildren(s.rows, s.nextId, parent, kids);
  }
}
