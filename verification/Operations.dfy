/**
 What each service call on invitations does to the store.  A transaction that
 throws leaves the store as it was; the calls that write before they can throw
 keep what they wrote.
 */
module Operations {
  import opened Prelude
  import opened Store
  import opened Forest
  import opened Rsvp
  import opened Confirmation

  function Refuse(s: State, e: Error): Answer {
    Answer(s, Threw(e))
  }

  // --------------------------------------------------- approval (admin.write)

  predicate ForActiveEvent(r: Row, active: Option<EventId>) {
    active == Some(r.event)
  }

  datatype Approval = Approval(
    id: Id, approve: bool, actor: Option<UserId>, seat: Option<Seat>, locale: Option<string>,
    active: Option<EventId>, grantSucceeds: bool)

  /** The checks before anything is written. */
  function ApprovalRefusal(s: State, a: Approval): Option<Error> {
    if a.id !in s.rows then Some(NotFound)
    else
      var r := s.rows[a.id];
      if !ForActiveEvent(r, a.active) then Some(EventMismatch)
      else if a.approve && r.choice.None? then Some(RsvpNotSubmitted)
      else if a.approve && r.choice != Some(YES) then Some(RsvpNotAccepted)
      else if a.approve && r.status.APPROVED? then Some(AlreadyApproved)
      else if !a.approve && r.status.REJECTED? then Some(AlreadyRejected)
      else if a.approve && r.guest.Some? && !a.grantSucceeds then Some(GrantFailed)
      else None
  }

  /** The approval is in the row before the name and contact checks can throw. */
  function MarkApproved(s: State, a: Approval): State
    requires a.id in s.rows
  {
    var marked := Put(s, a.id, s.rows[a.id].(status := APPROVED, approvedBy := a.actor));
    if a.seat.Some? then Emit(marked, ApprovedWithSeat(a.id, a.seat.value)) else marked
  }

  predicate ReleaseIsScheduled(s: State, event: EventId) {
    && event in s.settings
    && s.settings[event].scheduleRelease
    && s.settings[event].releaseAt.Some?
    && s.settings[event].releaseAt.value > s.now
  }

  function Accept(s: State, a: Approval): Answer
    requires a.id in s.rows
  {
    var marked := MarkApproved(s, a);
    var r := marked.rows[a.id];
    if r.guest.Some? then Answer(marked, Done)
    else if r.firstName == "" || r.lastName == "" then Refuse(marked, MissingGuestName)
    else if r.pendingId.None? then Refuse(marked, MissingPendingContact)
    else if ReleaseIsScheduled(marked, r.event) then
      var job := TicketJob(a.id, a.seat, a.locale, marked.settings[r.event].releaseAt.value);
      Answer(marked.(jobs := marked.jobs + {job}), Done)
    else Answer(SendOrReserve(marked, a.id, a.seat, a.locale), Done)
  }

  function Reject(s: State, a: Approval): State
    requires a.id in s.rows
  {
    var r := s.rows[a.id];
    Put(Forget(s, r.pendingId), a.id,
        r.(pendingId := None, payload := None, status := REJECTED, approvedBy := a.actor))
  }

  function Approve(s: State, a: Approval): Answer {
    var refusal := ApprovalRefusal(s, a);
    if refusal.Some? then Refuse(s, refusal.value)
    else if a.approve then Accept(s, a)
    else Answer(Reject(s, a), Done)
  }

  function AutoApproval(id: Id, event: EventId, actor: UserId, grantSucceeds: bool): Approval {
    Approval(id, true, Some(actor), None, None, Some(event), grantSucceeds)
  }

  // ------------------------------------------------------ reply (guest.write)

  datatype Details = Details(
    firstName: Option<string>, lastName: Option<string>, phones: seq<Phone>, plusOnes: seq<PlusOne>)

  datatype ReplyCall = ReplyCall(
    id: Id, choice: Choice, details: Option<Details>, locale: string, grantSucceeds: bool)

  function Or<T>(value: Option<T>, fallback: T): T {
    if value.Some? then value.value else fallback
  }

  /** The plus-ones a YES reply creates: the list cut at the row's remaining capacity, which is not lowered. */
  function AllowedPlusOnes(r: Row, call: ReplyCall): seq<PlusOne> {
    if !call.choice.YES? || call.details.None? then []
    else call.details.value.plusOnes[..Sliced(|call.details.value.plusOnes|, r.maxInvitees)]
  }

  function ReplyRefusal(s: State, call: ReplyCall): Option<Error> {
    if call.id !in s.rows then Some(NotFound)
    else
      var r := s.rows[call.id];
      if Answered(r.choice) then Some(AlreadyAnswered)
      else if call.choice.YES? && call.details.None? then Some(MissingContactDetails)
      else if call.choice.YES? && !HasValidPhone(call.details.value.phones) then Some(MissingContactMethod)
      else if exists k :: 0 <= k < |AllowedPlusOnes(r, call)| && !CompletePlusOne(AllowedPlusOnes(r, call)[k])
        then Some(InvalidInput)
      else None
  }

  function ReplyStatus(r: Row, choice: Choice): Status {
    var d := Decide(r.choice, choice, true);
    if r.status.APPROVAL_STAGED? && choice.YES? then APPROVAL_STAGED
    else if d.Decided? then d.newStatus else r.status
  }

  function RepliedRow(s: State, call: ReplyCall): Row
    requires call.id in s.rows
  {
    var r := s.rows[call.id];
    r.(choice := Some(call.choice),
       status := ReplyStatus(r, call.choice),
       rsvpAt := Some(s.now),
       firstName := if call.details.Some? then Or(call.details.value.firstName, r.firstName) else r.firstName,
       lastName := if call.details.Some? then Or(call.details.value.lastName, r.lastName) else r.lastName)
  }

  /** An accepted plus-one, as `reply` and the public RSVP create it: no inviter, no pending contact. */
  function AcceptedChild(kind: Kind, event: EventId, parent: Id, p: PlusOne, now: int): Row {
    BlankRow(kind, event, p.firstName, p.lastName).(
      status := ACCEPTED, choice := Some(YES), rsvpAt := Some(now), parent := Some(parent))
  }

  function AcceptedChildren(kind: Kind, event: EventId, parent: Id, ps: seq<PlusOne>, now: int): seq<Row> {
    seq(|ps|, i requires 0 <= i < |ps| => AcceptedChild(kind, event, parent, ps[i], now))
  }

  function IdsFrom(first: Id, count: nat): seq<Id> {
    seq(count, i requires 0 <= i < count => first + i)
  }

  /** The transaction of a reply that is not refused. */
  function ReplyCommit(s: State, call: ReplyCall): State
    requires call.id in s.rows
  {
    var r := s.rows[call.id];
    var allowed := AllowedPlusOnes(r, call);
    var replied := RepliedRow(s, call);
    var s1 := InsertAll(Put(s, call.id, replied), AcceptedChildren(PRIVATE, r.event, call.id, allowed, s.now));
    if call.choice.YES? && call.details.Some? then
      var p := Payload(call.id, replied.firstName, replied.lastName, call.locale, None, IdsFrom(s.nextId, |allowed|));
      Anchor(s1, call.id, replied, p)
    else s1
  }

  predicate ReplyAutoApproves(s: State, call: ReplyCall)
    requires call.id in s.rows
  {
    var r := s.rows[call.id];
    && call.choice.YES?
    && (r.autoApprove || ShouldAutoApprove(ModeOf(s, r.event), r.kind))
    && !r.status.APPROVAL_STAGED?
  }

  function Reply(s: State, call: ReplyCall): Answer {
    var refusal := ReplyRefusal(s, call);
    if refusal.Some? then Refuse(s, refusal.value)
    else
      var r := s.rows[call.id];
      var replied := ReplyCommit(s, call);
      if !ReplyAutoApproves(s, call) then Answer(replied, Done)
      else if r.inviter.None? then Refuse(replied, AutoApprovalIncomplete)
      else Approve(replied, AutoApproval(call.id, r.event, r.inviter.value, call.grantSucceeds))
  }

  // ----------------------------------------------- plus-ones (guest.write)

  /** The caller: a user id, if signed in, and the events where it holds `plus_ones.manage`. */
  datatype Actor = Actor(user: Option<UserId>, staffOf: set<EventId>)

  datatype Standing = OwnerOrCreator | Staff | Forbidden(error: Error)

  function StandingOn(s: State, parent: Id, actor: Actor): Standing {
    if actor.user.None? then Forbidden(AccessDenied)
    else if parent !in s.rows then Forbidden(NotFound)
    else if s.rows[parent].guest == actor.user || s.rows[parent].inviter == actor.user then OwnerOrCreator
    else if s.rows[parent].event in actor.staffOf then Staff
    else Forbidden(AccessDenied)
  }

  datatype PlusOneCall = PlusOneCall(
    event: Option<EventId>, parent: Option<Id>, person: PlusOne, hasEmail: bool, phones: seq<Phone>,
    actor: Actor, locale: string)

  function CreatePlusOneRefusal(s: State, call: PlusOneCall): Option<Error> {
    if call.event.None? || call.parent.None? || !CompletePlusOne(call.person) then Some(InvalidInput)
    else if exists k :: 0 <= k < |call.phones| && !call.phones[k].complete then Some(InvalidInput)
    else if call.parent.value !in s.rows then Some(NotFound)
    else if s.rows[call.parent.value].event != call.event.value then Some(EventMismatch)
    else
      var standing := StandingOn(s, call.parent.value, call.actor);
      if standing.Forbidden? then Some(standing.error)
      else if standing.Staff? && !call.hasEmail && !HasValidPhone(call.phones) then Some(MissingContactMethod)
      else if s.rows[call.parent.value].maxInvitees <= 0 then Some(NoCapacity)
      else None
  }

  predicate PlusOneAutoApproves(s: State, call: PlusOneCall)
    requires CreatePlusOneRefusal(s, call).None?
  {
    var parent := s.rows[call.parent.value];
    || StandingOn(s, call.parent.value, call.actor).Staff?
    || (&& parent.status.APPROVED?
        && parent.event in s.settings
        && !s.settings[parent.event].requireApprovalForPlusOnes)
  }

  function TakeSlots(s: State, parent: Id, slots: int): State
    requires parent in s.rows
  {
    Put(s, parent, s.rows[parent].(maxInvitees := s.rows[parent].maxInvitees - slots))
  }

  function PlusOneRow(s: State, call: PlusOneCall): Row
    requires CreatePlusOneRefusal(s, call).None?
  {
    var auto := PlusOneAutoApproves(s, call);
    BlankRow(PRIVATE, call.event.value, call.person.firstName, call.person.lastName).(
      parent := call.parent,
      inviter := call.actor.user,
      status := if auto then ACCEPTED else PENDING,
      choice := if auto then Some(YES) else None,
      rsvpAt := if auto then Some(s.now) else None)
  }

  function CreatePlusOneCommit(s: State, call: PlusOneCall): State
    requires CreatePlusOneRefusal(s, call).None?
  {
    var child := PlusOneRow(s, call);
    var p := Payload(s.nextId, child.firstName, child.lastName, call.locale, None, []);
    Anchor(Insert(TakeSlots(s, call.parent.value, 1), child), s.nextId, child, p)
  }

  function CreatePlusOne(s: State, call: PlusOneCall): Answer {
    var refusal := CreatePlusOneRefusal(s, call);
    if refusal.Some? then Refuse(s, refusal.value)
    else
      var created := CreatePlusOneCommit(s, call);
      if PlusOneAutoApproves(s, call)
      then Approve(created, AutoApproval(s.nextId, call.event.value, call.actor.user.value, true))
      else Answer(created, Done)
  }

  function ManageRefusal(s: State, id: Id, actor: Actor): Option<Error> {
    if id !in s.rows then Some(NotFound)
    else if s.rows[id].parent.None? then Some(NotAPlusOne)
    else
      var standing := StandingOn(s, s.rows[id].parent.value, actor);
      if standing.Forbidden? then Some(standing.error) else None
  }

  function UpdatePlusOne(s: State, id: Id, person: PlusOne, phones: seq<Phone>, actor: Actor): Answer {
    if !CompletePlusOne(person) || exists k :: 0 <= k < |phones| && !phones[k].complete then Refuse(s, InvalidInput)
    else
      var refusal := ManageRefusal(s, id, actor);
      if refusal.Some? then Refuse(s, refusal.value)
      else Answer(Put(s, id, s.rows[id].(firstName := person.firstName, lastName := person.lastName)), Done)
  }

  function DeletePlusOneCommit(s: State, id: Id): State
    requires id in s.rows && s.rows[id].parent.Some?
  {
    var r := s.rows[id];
    var parent := r.parent.value;
    var s1 := Forget(s, r.pendingId).(rows := Cascade(s.rows, {id}));
    var s2 := if parent in s1.rows then TakeSlots(s1, parent, -1) else s1;
    if r.guest.Some? then Emit(s2, GuestsDeleted(multiset{r.guest.value})) else s2
  }

  function DeletePlusOne(s: State, id: Id, actor: Actor): Answer {
    var refusal := ManageRefusal(s, id, actor);
    if refusal.Some? then Refuse(s, refusal.value) else Answer(DeletePlusOneCommit(s, id), Done)
  }

  // ------------------------------------------------------ limits, staging

  function UpdateLimit(s: State, id: Id, total: int, active: Option<EventId>): Answer {
    if total < 0 then Refuse(s, InvalidInput)
    else if id !in s.rows then Refuse(s, NotFound)
    else if !ForActiveEvent(s.rows[id], active) then Refuse(s, EventMismatch)
    else if s.rows[id].parent.Some? then Refuse(s, InvalidInput)
    else if total < |Children(s.rows, id)| then Refuse(s, LimitBelowAssigned)
    else Answer(Put(s, id, s.rows[id].(maxInvitees := total - |Children(s.rows, id)|)), Done)
  }

  predicate CanChangeStage(r: Row, staged: bool) {
    if staged then r.status.PENDING? || r.status.ACCEPTED? else r.status.APPROVAL_STAGED?
  }

  function StagedRow(r: Row, staged: bool): Row {
    r.(status := if staged then APPROVAL_STAGED else if r.choice == Some(YES) then ACCEPTED else PENDING)
  }

  function StageCommit(rows: Rows, ids: set<Id>, staged: bool): Rows {
    map id | id in rows :: if id in ids then StagedRow(rows[id], staged) else rows[id]
  }

  /** Which rows a batch may hold. */
  predicate MayChangeStage(r: Row, staged: bool, active: Option<EventId>) {
    ForActiveEvent(r, active) && CanChangeStage(r, staged)
  }

  function StageRefusal(s: State, ids: set<Id>, staged: bool, active: Option<EventId>): Option<Error> {
    if !(ids <= s.rows.Keys) then Some(InvalidInput)
    else if exists id :: id in ids && !MayChangeStage(s.rows[id], staged, active) then Some(CannotChangeStage)
    else None
  }

  /** The first check that fails on the rows of a batch, in the order the query returned them. */
  function FirstStageError(rows: Rows, order: seq<Id>, staged: bool, active: Option<EventId>): Option<Error>
    decreases |order|
  {
    if order == [] then None
    else if order[0] in rows && !ForActiveEvent(rows[order[0]], active) then Some(EventMismatch)
    else if order[0] in rows && !CanChangeStage(rows[order[0]], staged) then Some(CannotChangeStage)
    else FirstStageError(rows, order[1..], staged, active)
  }

  function Stage(s: State, ids: set<Id>, staged: bool, active: Option<EventId>): Answer {
    var refusal := StageRefusal(s, ids, staged, active);
    if refusal.Some? then Refuse(s, refusal.value)
    else Answer(s.(rows := StageCommit(s.rows, ids, staged)), Done)
  }

  // --------------------------------------------------------------- creation

  /** What a caller of `create` or `importMany` supplies; only `create` has an inviter to store. */
  datatype Record = Record(
    event: EventId, firstName: string, lastName: string, maxInvitees: int, parent: Option<Id>, inviter: Option<UserId>)

  function CreatedRow(s: State, event: EventId, rec: Record): Row {
    BlankRow(PRIVATE, event, rec.firstName, rec.lastName).(
      endsAt := if event in s.settings then s.settings[event].endsAt else None,
      autoApprove := ShouldAutoApprove(ModeOf(s, event), PRIVATE),
      parent := rec.parent, inviter := rec.inviter, maxInvitees := rec.maxInvitees)
  }

  function Create(s: State, event: Option<EventId>, rec: Record): Answer {
    if event.None? || rec.maxInvitees < 0 then Refuse(s, InvalidInput)
    else if rec.parent.Some? && rec.parent.value !in s.rows then Refuse(s, ParentMissing)
    else Answer(Insert(s, CreatedRow(s, event.value, rec)), Done)
  }

  function RecordRow(rec: Record): Row {
    BlankRow(PRIVATE, rec.event, rec.firstName, rec.lastName).(
      maxInvitees := rec.maxInvitees, parent := rec.parent)
  }

  function RecordRows(records: seq<Record>): seq<Row> {
    seq(|records|, i requires 0 <= i < |records| => RecordRow(records[i]))
  }

  /** The foreign key, checked insert by insert: a record may even name a row of the same import. */
  predicate ParentsExist(s: State, records: seq<Record>) {
    forall i | 0 <= i < |records| && records[i].parent.Some? ::
      records[i].parent.value in s.rows || s.nextId <= records[i].parent.value < s.nextId + i
  }

  function ImportMany(s: State, records: seq<Record>): Answer {
    if !ParentsExist(s, records) then Refuse(s, ParentMissing)
    else Answer(InsertAll(s, RecordRows(records)), Done)
  }

  datatype PublicCall = PublicCall(
    event: EventId, firstName: string, lastName: string, phones: seq<Phone>, plusOnes: seq<PlusOne>, locale: string)

  const SYSTEM_ACTOR: UserId := 0

  function PublicRefusal(call: PublicCall): Option<Error> {
    if !HasValidPhone(call.phones) then Some(MissingContactMethod)
    else if exists k :: 0 <= k < |call.plusOnes| && !CompletePlusOne(call.plusOnes[k]) then Some(InvalidInput)
    else None
  }

  function PublicRow(s: State, call: PublicCall): Row {
    var settings := SettingsOf(s, call.event);
    BlankRow(PUBLIC, call.event, call.firstName, call.lastName).(
      endsAt := if settings.Some? then settings.value.endsAt else None,
      autoApprove := ShouldAutoApprove(ModeOf(s, call.event), PUBLIC),
      status := ACCEPTED, choice := Some(YES), rsvpAt := Some(s.now),
      maxInvitees := |call.plusOnes|)
  }

  function PublicCommit(s: State, call: PublicCall): State {
    var row := PublicRow(s, call);
    var children := AcceptedChildren(PUBLIC, call.event, s.nextId, call.plusOnes, s.now);
    var p := Payload(s.nextId, call.firstName, call.lastName, call.locale, None,
                     IdsFrom(s.nextId + 1, |call.plusOnes|));
    Anchor(InsertAll(Insert(s, row), children), s.nextId, row, p)
  }

  function PublicRsvp(s: State, call: PublicCall): Answer {
    if PublicRefusal(call).Some? then Refuse(s, PublicRefusal(call).value)
    else
      var created := PublicCommit(s, call);
      if PublicRow(s, call).autoApprove
      then Approve(created, AutoApproval(s.nextId, call.event, SYSTEM_ACTOR, true))
      else Answer(created, Done)
  }

  // --------------------------------------------------------------- deletion

  /** The children a bulk removal takes: those in the parent's own event. */
  function RemovableChildren(rows: Rows, parent: Id): set<Id>
    requires parent in rows
  {
    set id | id in Children(rows, parent) && rows[id].event == rows[parent].event
  }

  function PendingOf(rows: Rows, ids: set<Id>): set<Token>
    requires ids <= rows.Keys
  {
    set id | id in ids && rows[id].pendingId.Some? :: rows[id].pendingId.value
  }

  function GuestAt(rows: Rows, id: Id): multiset<UserId> {
    if id in rows && rows[id].guest.Some? then multiset{rows[id].guest.value} else multiset{}
  }

  /** The linked guests of the rows in `order`, with repetitions. */
  function GuestsOf(rows: Rows, order: seq<Id>): multiset<UserId>
    decreases |order|
  {
    if order == [] then multiset{} else GuestAt(rows, order[0]) + GuestsOf(rows, order[1..])
  }

  /** `order` lists `ids`, each once: the order in which a query happens to return rows. */
  ghost predicate Lists(order: seq<Id>, ids: set<Id>) {
    && (forall i, j :: 0 <= i < j < |order| ==> order[i] != order[j])
    && (forall k :: 0 <= k < |order| ==> order[k] in ids)
    && (forall id | id in ids :: id in order)
  }

  function DeleteAllRefusal(s: State, parent: Id, actor: Actor): Option<Error> {
    if parent !in s.rows then Some(NotFound)
    else
      var standing := StandingOn(s, parent, actor);
      if standing.Forbidden? then Some(standing.error) else None
  }

  /** Removes the children in the parent's event, hands their slots back, and asks for their guests' deletion. */
  function DeleteAllCommit(s: State, parent: Id, guests: multiset<UserId>): State
    requires parent in s.rows
  {
    var kids := RemovableChildren(s.rows, parent);
    var left := Cascade(s.rows, kids);
    var s1 := s.(rows := left, cache := s.cache - PendingOf(s.rows, kids));
    var s2 := if parent in left then TakeSlots(s1, parent, -|kids|) else s1;
    if guests == multiset{} then s2 else Emit(s2, GuestsDeleted(guests))
  }

  ghost function DeleteAllPlusOnes(s: State, parent: Id, actor: Actor, order: seq<Id>): Answer
    requires parent in s.rows ==> Lists(order, RemovableChildren(s.rows, parent))
  {
    var refusal := DeleteAllRefusal(s, parent, actor);
    if refusal.Some? then Refuse(s, refusal.value)
    else Answer(DeleteAllCommit(s, parent, GuestsOf(s.rows, order)), Done)
  }

  function DeleteOne(s: State, id: Id, active: Option<EventId>): Answer {
    if id !in s.rows then Refuse(s, NotFound)
    else if !ForActiveEvent(s.rows[id], active) then Refuse(s, EventMismatch)
    else Answer(s.(rows := Cascade(s.rows, {id})), Done)
  }

  function AsSet(ids: seq<Id>): set<Id> {
    set id | id in ids
  }

  /** One delete after the other inside one transaction; `None` when one of them throws. */
  function DeleteEach(rows: Rows, ids: seq<Id>, active: Option<EventId>): Option<Rows>
    decreases |ids|
  {
    if ids == [] then Some(rows)
    else if ids[0] !in rows || !ForActiveEvent(rows[ids[0]], active) then None
    else DeleteEach(Cascade(rows, {ids[0]}), ids[1..], active)
  }

  function DeleteManyError(rows: Rows, ids: seq<Id>, active: Option<EventId>): Error
    requires DeleteEach(rows, ids, active).None?
    decreases |ids|
  {
    if ids[0] !in rows then NotFound
    else if !ForActiveEvent(rows[ids[0]], active) then EventMismatch
    else DeleteManyError(Cascade(rows, {ids[0]}), ids[1..], active)
  }

  function DeleteMany(s: State, ids: seq<Id>, active: Option<EventId>): Answer {
    if ids == [] then Refuse(s, InvalidInput)
    else
      var left := DeleteEach(s.rows, ids, active);
      if left.None? then Refuse(s, DeleteManyError(s.rows, ids, active))
      else Answer(s.(rows := left.value), Done)
  }

  function IdsOfGuest(rows: Rows, guest: UserId): set<Id> {
    set id | id in rows && rows[id].guest == Some(guest)
  }

  function IdsOfEvents(rows: Rows, events: set<EventId>): set<Id> {
    set id | id in rows && rows[id].event in events
  }

  function DeleteIds(s: State, ids: set<Id>): State {
    s.(rows := Cascade(s.rows, ids))
  }

  function LinkGuest(s: State, id: Id, user: UserId): Answer {
    if id !in s.rows then Refuse(s, NotFound)
    else Answer(Emit(Put(s, id, s.rows[id].(guest := Some(user))), GuestLinked(id)), Done)
  }
}
