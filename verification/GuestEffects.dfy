/**
 The guests' calls told from outside: why each is refused, and what it leaves
 in the rows, the cache and the log.
 */
module GuestEffects {
  import opened Prelude
  import opened Store
  import opened Forest
  import opened Operations
  import opened Invariants
  import opened Deletion
  import opened Replies
  import opened Approvals
  import opened ApprovalEffects

  /** One of the numbers has a character that is not a blank. */
  predicate HasNumber(phones: seq<Phone>) {
    exists i, j :: 0 <= i < |phones| && 0 <= j < |phones[i].number|
                   && phones[i].number[j] != ' ' && phones[i].number[j] != '\t'
                   && phones[i].number[j] != '\n' && phones[i].number[j] != '\r'
  }

  lemma NumberIsPhone(phones: seq<Phone>)
    ensures HasNumber(phones) <==> HasValidPhone(phones)
  {
    if HasValidPhone(phones) {
      var i :| 0 <= i < |phones| && HasText(phones[i].number);
      var j :| 0 <= j < |phones[i].number| && !IsSpace(phones[i].number[j]);
    }
    if HasNumber(phones) {
      var i, j :| 0 <= i < |phones| && 0 <= j < |phones[i].number|
                  && phones[i].number[j] != ' ' && phones[i].number[j] != '\t'
                  && phones[i].number[j] != '\n' && phones[i].number[j] != '\r';
      assert HasText(phones[i].number);
    }
  }

  /** One of the first `count` people lacks a name or an age category. */
  predicate SomeoneLacks(people: seq<PlusOne>, count: nat)
    requires count <= |people|
  {
    exists k :: 0 <= k < count && (people[k].firstName == "" || people[k].lastName == "" || !people[k].hasAge)
  }

  /** How many of the listed people a row with this capacity takes; a negative one drops people from the end. */
  function Places(capacity: int, listed: nat): (n: nat)
    ensures n <= listed
  {
    if capacity >= listed then listed
    else if capacity >= 0 then capacity
    else if listed + capacity > 0 then listed + capacity else 0
  }

  // ------------------------------------------------------------ replies

  lemma LackingAllowed(r: Row, call: ReplyCall)
    requires call.choice == YES && call.details.Some?
    ensures var list := call.details.value.plusOnes;
      SomeoneLacks(list, Places(r.maxInvitees, |list|))
      <==> exists k :: 0 <= k < |AllowedPlusOnes(r, call)| && !CompletePlusOne(AllowedPlusOnes(r, call)[k])
  {
    var list := call.details.value.plusOnes;
    var n := Places(r.maxInvitees, |list|);
    PlacesOf(r, call);
    assert AllowedPlusOnes(r, call) == list[..n];
    if SomeoneLacks(list, n) {
      var k :| 0 <= k < n && (list[k].firstName == "" || list[k].lastName == "" || !list[k].hasAge);
      assert !CompletePlusOne(AllowedPlusOnes(r, call)[k]);
    }
  }

  /** Why a reply is refused, told from outside. */
  function ReplyError(s: State, call: ReplyCall): Option<Error> {
    if call.id !in s.rows then Some(NotFound)
    else if s.rows[call.id].choice == Some(YES) || s.rows[call.id].choice == Some(NO) then Some(AlreadyAnswered)
    else if call.choice != YES then None
    else if call.details == None then Some(MissingContactDetails)
    else
      var list := call.details.value.plusOnes;
      if !HasNumber(call.details.value.phones) then Some(MissingContactMethod)
      else if SomeoneLacks(list, Places(s.rows[call.id].maxInvitees, |list|)) then Some(InvalidInput)
      else None
  }

  lemma ReplyIsRefused(s: State, call: ReplyCall)
    ensures ReplyRefusal(s, call) == ReplyError(s, call)
  {
    if call.id in s.rows && call.choice == YES && call.details.Some? {
      NumberIsPhone(call.details.value.phones);
      LackingAllowed(s.rows[call.id], call);
    }
    hide HasNumber;
    hide HasValidPhone;
    hide SomeoneLacks;
  }

  /**
   How a reply ends.  It is refused, and changes nothing, if there is no such row, if a YES or NO was given before, or
   if a YES comes without contact details, without a phone number, or with an incomplete person among those the row
   has places for.  Otherwise it can fail only in the approval it triggers, and what it wrote stays.
   */
  lemma ReplyEnds(s: State, call: ReplyCall)
    requires StoreInv(s)
    ensures var e := ReplyError(s, call);
      if e.Some? then Reply(s, call) == Answer(s, Threw(e.value))
      else
        var r, o := s.rows[call.id], Reply(s, call).outcome;
        if call.choice != YES || r.status == APPROVAL_STAGED then o == Done
        else if !(r.autoApprove || ModeApproves(s, r.event, r.kind)) then o == Done
        else if r.inviter.None? then o == Threw(AutoApprovalIncomplete)
        else if r.guest.Some? then o == if call.grantSucceeds then Done else Threw(GrantFailed)
        else o == if HasName(ReplyCommit(s, call).rows[call.id]) then Done else Threw(MissingGuestName)
  {
    ReplyIsRefused(s, call);
    hide ReplyError;
    if ReplyError(s, call).None? {
      CommittedReply(s, call);
      var r := s.rows[call.id];
      if ReplyAutoApproves(s, call) && r.inviter.Some? {
        ReplyAutoApprovalNeverTrips(s, call);
      }
    }
    hide ReplyCommit;
    hide ReplyRefusal;
    hide Approve;
    hide Sound;
  }

  // ------------------------------------------------------------ their people

  lemma CommittedPeople(s: State, kind: Kind, event: EventId, parent: Id, people: seq<PlusOne>, k: nat)
    requires k < |people|
    ensures var t := InsertAll(s, AcceptedChildren(kind, event, parent, people, s.now));
      && s.nextId + k in t.rows
      && t.rows[s.nextId + k]
         == Row(kind, event, people[k].firstName, people[k].lastName, false, None, ACCEPTED, Some(YES), Some(s.now),
                None, None, None, Some(parent), 0, None, None, None, 0)
  {
    InsertedAt(s, AcceptedChildren(kind, event, parent, people, s.now), k);
    hide InsertAll;
  }

  lemma ReplyCommitBrings(s: State, call: ReplyCall, k: nat)
    requires StoreInv(s) && ReplyRefusal(s, call).None? && call.choice.YES?
    requires k < |AllowedPlusOnes(s.rows[call.id], call)|
    ensures var t, p := ReplyCommit(s, call), AllowedPlusOnes(s.rows[call.id], call)[k];
      && s.nextId + k in t.rows
      && t.rows[s.nextId + k]
         == Row(PRIVATE, s.rows[call.id].event, p.firstName, p.lastName, false, None, ACCEPTED, Some(YES), Some(s.now),
                None, None, None, Some(call.id), 0, None, None, None, 0)
  {
    hide InsertAll;
    hide AcceptedChildren;
    hide ReplyCommit;
    hide AllowedPlusOnes;
    hide RepliedRow;
    IdIsOld(s, call.id);
    hide ReplyRefusal;
    hide Sound;
    ReplyShape(s, call);
    CommittedPeople(Put(s, call.id, RepliedRow(s, call)), PRIVATE, s.rows[call.id].event, call.id,
                    AllowedPlusOnes(s.rows[call.id], call), k);
  }

  lemma ReplyKeepsCommitted(s: State, call: ReplyCall, id: Id)
    requires StoreInv(s) && ReplyRefusal(s, call).None? && id != call.id
    ensures var t, u := Reply(s, call).state, ReplyCommit(s, call);
      (id in t.rows <==> id in u.rows) && (id in u.rows ==> t.rows[id] == u.rows[id])
  {
    hide ReplyCommit;
    hide Approve;
    CommittedReply(s, call);
    hide Sound;
    var r := s.rows[call.id];
    if ReplyAutoApproves(s, call) && r.inviter.Some? {
      ApprovedRow(ReplyCommit(s, call), AutoApproval(call.id, r.event, r.inviter.value, call.grantSucceeds));
    }
  }

  /** Everyone a YES brings is stored, in order, under the row: a private accepted row without inviter or contact. */
  lemma ReplyBrings(s: State, call: ReplyCall, k: nat)
    requires StoreInv(s) && ReplyError(s, call).None? && call.choice == YES
    requires k < Places(s.rows[call.id].maxInvitees, |call.details.value.plusOnes|)
    ensures var t, p := Reply(s, call).state, call.details.value.plusOnes[k];
      && s.nextId + k in t.rows
      && t.rows[s.nextId + k]
         == Row(PRIVATE, s.rows[call.id].event, p.firstName, p.lastName, false, None, ACCEPTED, Some(YES), Some(s.now),
                None, None, None, Some(call.id), 0, None, None, None, 0)
  {
    hide Reply;
    hide ReplyCommit;
    hide ReplyRefusal;
    hide AllowedPlusOnes;
    ReplyIsRefused(s, call);
    PlacesOf(s.rows[call.id], call);
    IdIsOld(s, call.id);
    hide Sound;
    ReplyCommitBrings(s, call, k);
    ReplyKeepsCommitted(s, call, s.nextId + k);
  }

  /** Everyone named in a public RSVP is stored, in order, as a public accepted row under the invitee. */
  lemma PublicBrings(s: State, call: PublicCall, k: nat)
    requires PublicRefusal(call).None? && k < |call.plusOnes|
    ensures var t, p := PublicRsvp(s, call).state, call.plusOnes[k];
      && s.nextId + 1 + k in t.rows
      && t.rows[s.nextId + 1 + k]
         == Row(PUBLIC, call.event, p.firstName, p.lastName, false, None, ACCEPTED, Some(YES), Some(s.now),
                None, None, None, Some(s.nextId), 0, None, None, None, 0)
  {
    hide InsertAll;
    hide AcceptedChildren;
    hide PublicCommit;
    hide Approve;
    hide PublicRow;
    PublicShape(s, call);
    CommittedPeople(Insert(s, PublicRow(s, call)), PUBLIC, call.event, s.nextId, call.plusOnes, k);
    CommittedPublic(s, call);
    if PublicRow(s, call).autoApprove {
      ApprovedRow(PublicCommit(s, call), AutoApproval(s.nextId, call.event, SYSTEM_ACTOR, true));
    }
  }

  /** How a public RSVP ends; its approval can fail only on an empty name, and then what was written stays. */
  lemma PublicEnds(s: State, call: PublicCall)
    ensures var a := PublicRsvp(s, call);
      if !HasNumber(call.phones) then a == Answer(s, Threw(MissingContactMethod))
      else if SomeoneLacks(call.plusOnes, |call.plusOnes|) then a == Answer(s, Threw(InvalidInput))
      else a.outcome == if ModeApproves(s, call.event, PUBLIC) && (call.firstName == "" || call.lastName == "")
                        then Threw(MissingGuestName) else Done
  {
    NumberIsPhone(call.phones);
    PublicColumns(s, call);
    if PublicRefusal(call).None? {
      PublicAutoApprovalNeverTrips(s, call);
    }
    hide PublicRow;
    hide PublicCommit;
    hide Approve;
    hide HasNumber;
    hide HasValidPhone;
  }

  // ------------------------------------------------------------ plus-ones

  /** The caller is the parent's guest or inviter, or staff of its event. */
  predicate Manages(r: Row, actor: Actor) {
    actor.user.Some? && (r.guest == actor.user || r.inviter == actor.user || r.event in actor.staffOf)
  }

  /** Both names and the age category, and only complete phone numbers. */
  predicate IsFilled(person: PlusOne, phones: seq<Phone>) {
    && person.firstName != "" && person.lastName != "" && person.hasAge
    && forall k | 0 <= k < |phones| :: phones[k].complete
  }

  /** How a createPlusOne ends, for every reason it is refused for; one that is not refused always ends well. */
  lemma CreatePlusOneEnds(s: State, call: PlusOneCall)
    ensures var a := CreatePlusOne(s, call);
      if !(call.event.Some? && call.parent.Some? && IsFilled(call.person, call.phones))
      then a == Answer(s, Threw(InvalidInput))
      else if call.parent.value !in s.rows then a == Answer(s, Threw(NotFound))
      else
        var parent := s.rows[call.parent.value];
        if parent.event != call.event.value then a == Answer(s, Threw(EventMismatch))
        else if !Manages(parent, call.actor) then a == Answer(s, Threw(AccessDenied))
        else if && parent.guest != call.actor.user && parent.inviter != call.actor.user
                && !call.hasEmail && !HasNumber(call.phones)
        then a == Answer(s, Threw(MissingContactMethod))
        else if parent.maxInvitees <= 0 then a == Answer(s, Threw(NoCapacity))
        else a.outcome == Done && CreatePlusOneRefusal(s, call).None?
  {
    NumberIsPhone(call.phones);
    if CreatePlusOneRefusal(s, call).None? {
      PlusOneAutoApprovalNeverTrips(s, call);
    }
    hide CreatePlusOneCommit;
    hide Approve;
    hide HasNumber;
    hide HasValidPhone;
  }

  /** Why a caller may not touch a plus-one. */
  function ManageError(s: State, id: Id, actor: Actor): Option<Error> {
    if id !in s.rows then Some(NotFound)
    else if s.rows[id].parent == None then Some(NotAPlusOne)
    else if actor.user == None then Some(AccessDenied)
    else if s.rows[id].parent.value !in s.rows then Some(NotFound)
    else if !Manages(s.rows[s.rows[id].parent.value], actor) then Some(AccessDenied)
    else None
  }

  /** An update changes the two names of that row and nothing else. */
  lemma UpdatePlusOneEnds(s: State, id: Id, person: PlusOne, phones: seq<Phone>, actor: Actor)
    ensures var a, e := UpdatePlusOne(s, id, person, phones, actor), ManageError(s, id, actor);
      if !IsFilled(person, phones) then a == Answer(s, Threw(InvalidInput))
      else if e.Some? then a == Answer(s, Threw(e.value))
      else a == Answer(
        s.(rows := s.rows[id := s.rows[id].(firstName := person.firstName, lastName := person.lastName)]), Done)
  {
  }

  /**
   Deleting a plus-one takes it and everyone under it out of the store and its token out of the cache, gives its
   parent one place back, and asks for the deletion of its guest, if it is linked; nothing else changes.
   */
  lemma DeletePlusOneEnds(s: State, id: Id, actor: Actor)
    requires StoreInv(s)
    ensures var a, e := DeletePlusOne(s, id, actor), ManageError(s, id, actor);
      if e.Some? then a == Answer(s, Threw(e.value))
      else
        var r, t := s.rows[id], a.state;
        var parent := r.parent.value;
        && a.outcome == Done
        && parent in t.rows && t.rows[parent] == s.rows[parent].(maxInvitees := s.rows[parent].maxInvitees + 1)
        && (forall i :: i in t.rows <==> i in s.rows && !Under(s.rows, i, {id}))
        && (forall i | i in t.rows && i != parent :: t.rows[i] == s.rows[i])
        && t == s.(rows := t.rows,
                   cache := s.cache - (if r.pendingId.Some? then {r.pendingId.value} else {}),
                   log := s.log + if r.guest.Some? then [GuestsDeleted(multiset{r.guest.value})] else [])
  {
    hide DeletePlusOneCommit;
    hide Under;
    if ManageError(s, id, actor).None? {
      OneRemoved(s, id);
    }
    hide Sound;
  }

  lemma OneRemoved(s: State, id: Id)
    requires StoreInv(s) && id in s.rows && s.rows[id].parent.Some?
    ensures var r, t := s.rows[id], DeletePlusOneCommit(s, id);
      var parent := r.parent.value;
      && parent in s.rows && parent in t.rows
      && t.rows[parent] == s.rows[parent].(maxInvitees := s.rows[parent].maxInvitees + 1)
      && (forall i :: i in t.rows <==> i in s.rows && !Under(s.rows, i, {id}))
      && (forall i | i in t.rows && i != parent :: t.rows[i] == s.rows[i])
      && t == s.(rows := t.rows,
                 cache := s.cache - (if r.pendingId.Some? then {r.pendingId.value} else {}),
                 log := s.log + if r.guest.Some? then [GuestsDeleted(multiset{r.guest.value})] else [])
  {
    hide Under;
    hide Cascade;
    IsAForest(s);
    hide Sound;
    Survivors(s.rows, s.nextId, s.rows[id].parent.value, {id});
    hide IsForest;
    assert s.log + [] == s.log && s.cache - {} == s.cache;
  }

  lemma Survivors(rows: Rows, nextId: Id, parent: Id, kids: set<Id>)
    requires IsForest(rows, nextId) && parent in rows && kids <= Children(rows, parent)
    ensures var left := Cascade(rows, kids);
      && parent in left
      && (forall i :: i in left <==> i in rows && !Under(rows, i, kids))
      && (forall i | i in left :: left[i] == rows[i])
  {
    ParentNotUnderChildren(rows, nextId, parent, kids);
  }

  /** The children a bulk removal takes are those in the parent's own event. */
  predicate IsTaken(rows: Rows, parent: Id, id: Id) {
    id in rows && parent in rows && rows[id].parent == Some(parent) && rows[id].event == rows[parent].event
  }

  /**
   The children and everyone under them are gone, and so are the children's tokens; the parent has one place more for
   each child; the deletion of these guests was asked for, if there are any; and nothing else changed.
   */
  ghost predicate TakenAway(s: State, t: State, parent: Id, kids: set<Id>, guests: multiset<UserId>)
    requires parent in s.rows && kids <= s.rows.Keys
  {
    && parent in t.rows && t.rows[parent] == s.rows[parent].(maxInvitees := s.rows[parent].maxInvitees + |kids|)
    && (forall i :: i in t.rows <==> i in s.rows && !Under(s.rows, i, kids))
    && (forall i | i in t.rows && i != parent :: t.rows[i] == s.rows[i])
    && (forall token :: token in t.cache <==>
          token in s.cache && forall id | id in kids :: s.rows[id].pendingId != Some(token))
    && (forall token | token in t.cache :: t.cache[token] == s.cache[token])
    && t == s.(rows := t.rows, cache := t.cache, log := t.log)
    && t.log == s.log + if guests == multiset{} then [] else [GuestsDeleted(guests)]
  }

  /**
   Deleting all plus-ones takes the parent's children in its event with everyone under them, gives the parent one
   place back for each child, and asks for the deletion of the children's guests.
   */
  lemma DeleteAllEnds(s: State, parent: Id, actor: Actor, order: seq<Id>)
    requires StoreInv(s) && (parent in s.rows ==> Lists(order, RemovableChildren(s.rows, parent)))
    ensures var a := DeleteAllPlusOnes(s, parent, actor, order);
      if parent !in s.rows then a == Answer(s, Threw(NotFound))
      else if !Manages(s.rows[parent], actor) then a == Answer(s, Threw(AccessDenied))
      else
        var kids := set id | id in s.rows && IsTaken(s.rows, parent, id);
        a.outcome == Done && TakenAway(s, a.state, parent, kids, GuestsOf(s.rows, order))
  {
    hide DeleteAllCommit;
    hide TakenAway;
    hide Sound;
    if parent in s.rows && Manages(s.rows[parent], actor) {
      assert RemovableChildren(s.rows, parent) == set id | id in s.rows && IsTaken(s.rows, parent, id);
      AllTakenAway(s, parent, GuestsOf(s.rows, order));
    }
  }

  lemma AllTakenAway(s: State, parent: Id, guests: multiset<UserId>)
    requires StoreInv(s) && parent in s.rows
    ensures TakenAway(s, DeleteAllCommit(s, parent, guests), parent, RemovableChildren(s.rows, parent), guests)
  {
    hide DeleteAllCommit;
    hide Under;
    IsAForest(s);
    hide Sound;
    var kids := RemovableChildren(s.rows, parent);
    assert kids <= Children(s.rows, parent);
    hide RemovableChildren;
    Survivors(s.rows, s.nextId, parent, kids);
    hide IsForest;
    hide Cascade;
    AllRemoved(s, parent, guests);
    TokensForgotten(s.cache, s.rows, kids);
    hide PendingOf;
  }

  lemma AllRemoved(s: State, parent: Id, guests: multiset<UserId>)
    requires parent in s.rows && parent in Cascade(s.rows, RemovableChildren(s.rows, parent))
    requires Cascade(s.rows, RemovableChildren(s.rows, parent))[parent] == s.rows[parent]
    ensures var r, t := s.rows[parent], DeleteAllCommit(s, parent, guests);
      var kids := RemovableChildren(s.rows, parent);
      var left := Cascade(s.rows, kids);
      && t.rows == left[parent := r.(maxInvitees := r.maxInvitees + |kids|)]
      && t == s.(rows := t.rows, cache := s.cache - PendingOf(s.rows, kids), log := t.log)
      && t.log == s.log + if guests == multiset{} then [] else [GuestsDeleted(guests)]
  {
    hide Under;
    hide Cascade;
    hide Children;
    hide RemovableChildren;
    hide PendingOf;
    assert s.log + [] == s.log;
  }

  lemma TokensForgotten(cache: map<Token, Payload>, rows: Rows, ids: set<Id>)
    requires ids <= rows.Keys
    ensures var left := cache - PendingOf(rows, ids);
      && (forall token :: token in left <==>
            token in cache && forall id | id in ids :: rows[id].pendingId != Some(token))
      && (forall token | token in left :: left[token] == cache[token])
  {
  }

  function LinkedTo(rows: Rows, ids: set<Id>, user: UserId): set<Id> {
    set id | id in ids && id in rows && rows[id].guest == Some(user)
  }

  lemma LinkedLess(rows: Rows, ids: set<Id>, id: Id, user: UserId)
    requires id in ids && id in rows
    ensures |LinkedTo(rows, ids, user)| == |LinkedTo(rows, ids - {id}, user)| + GuestAt(rows, id)[user]
  {
    var rest := LinkedTo(rows, ids - {id}, user);
    if rows[id].guest == Some(user) {
      assert LinkedTo(rows, ids, user) == rest + {id};
    } else {
      assert LinkedTo(rows, ids, user) == rest;
    }
  }

  /** How often a user is among those guests: once for each listed row linked to it. */
  lemma {:induction false} GuestsCounted(rows: Rows, order: seq<Id>, ids: set<Id>, user: UserId)
    requires Lists(order, ids) && ids <= rows.Keys
    ensures GuestsOf(rows, order)[user] == |set id | id in ids && rows[id].guest == Some(user)|
    decreases |order|
  {
    assert (set id | id in ids && rows[id].guest == Some(user)) == LinkedTo(rows, ids, user);
    LinkedCounted(rows, order, ids, user);
  }

  lemma {:induction false} LinkedCounted(rows: Rows, order: seq<Id>, ids: set<Id>, user: UserId)
    requires Lists(order, ids) && ids <= rows.Keys
    ensures GuestsOf(rows, order)[user] == |LinkedTo(rows, ids, user)|
    decreases |order|
  {
    if order == [] {
      assert LinkedTo(rows, ids, user) == {};
    } else {
      var id := order[0];
      ListsWithout(order, ids, 0);
      assert order[..0] + order[1..] == order[1..];
      LinkedCounted(rows, order[1..], ids - {id}, user);
      assert id in ids;
      hide Lists;
      hide LinkedTo;
      hide GuestAt;
      LinkedLess(rows, ids, id, user);
    }
  }
}
