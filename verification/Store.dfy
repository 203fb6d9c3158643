/**
 The invitation store: rows, the pending-contact cache, cooldown keys, event
 settings, delayed ticket jobs and the log of what was sent or received.
 Ids and cache tokens are numbered in order of creation, which stands for
 their being fresh.  Times are milliseconds.
 */
module Store {
  import opened Prelude

  type Id = nat
  type UserId = nat
  type EventId = nat
  type Token = nat
  type Seat = nat

  datatype Status = PENDING | ACCEPTED | APPROVAL_STAGED | DECLINED | CANCELED | REJECTED | APPROVED
  datatype Choice = YES | NO | MAYBE
  datatype Kind = PUBLIC | PRIVATE
  datatype ApprovalMode = AUTO | AUTO_PUBLIC_ONLY | AUTO_INVITE_ONLY | MANUAL
  datatype Preset = WEEK_BEFORE | THREE_DAYS_BEFORE | HOURS_24_BEFORE | OTHER_PRESET

  /** The contact data behind a confirmation link; `seat` is optional in the shared contract. */
  datatype Payload = Payload(
    invitation: Id, firstName: string, lastName: string, locale: string, seat: Option<Seat>, plusOnes: seq<Id>)

  datatype Row = Row(
    kind: Kind,
    event: EventId,
    firstName: string,
    lastName: string,
    autoApprove: bool,
    endsAt: Option<int>,
    status: Status,
    choice: Option<Choice>,
    rsvpAt: Option<int>,
    guest: Option<UserId>,
    inviter: Option<UserId>,
    approvedBy: Option<UserId>,
    parent: Option<Id>,
    maxInvitees: int,
    pendingId: Option<Token>,
    payload: Option<Payload>,
    sentAt: Option<int>,
    resends: nat)

  type Rows = map<Id, Row>

  /** The columns a plain `create` leaves at their defaults. */
  function BlankRow(kind: Kind, event: EventId, firstName: string, lastName: string): Row {
    Row(kind, event, firstName, lastName, false, None, PENDING, None, None, None, None, None, None, 0,
        None, None, None, 0)
  }

  datatype Settings = Settings(
    approvalMode: ApprovalMode,
    requireApprovalForPlusOnes: bool,
    startsAt: Option<int>,
    endsAt: Option<int>,
    scheduleRelease: bool,
    releaseAt: Option<int>,
    remindersEnabled: bool,
    presets: seq<Preset>,
    maxResends: Option<int>)

  /** Environment variables: resend cooldown, fallback reminder delay, default cap on reminders. */
  datatype Config = Config(cooldownMs: int, reminderAfterMs: int, maxResends: int)

  datatype TicketJob = TicketJob(id: Id, seat: Option<Seat>, locale: Option<string>, due: int)

  datatype Fact =
    | ApprovedWithSeat(id: Id, seat: Seat)
    | SeatRequested(id: Id)
    | SeatReserved(id: Id, seat: Seat)
    | ConfirmationSent(id: Id, token: Token, offered: Option<Seat>)
    | ResendAccepted(id: Id, at: int)
    | CooldownEvicted(id: Id)
    | ReminderScheduled(id: Id, preset: Option<Preset>, due: int)
    | GuestLinked(id: Id)
    | GuestsDeleted(users: multiset<UserId>)

  datatype State = State(
    now: int,
    rows: Rows,
    nextId: Id,
    cache: map<Token, Payload>,
    nextToken: Token,
    cooldowns: map<Id, int>,
    settings: map<EventId, Settings>,
    jobs: set<TicketJob>,
    log: seq<Fact>,
    config: Config)

  function Initial(now: int, config: Config): State {
    State(now, map[], 0, map[], 0, map[], map[], {}, [], config)
  }

  datatype Error =
    | NotFound
    | InvalidInput
    | EventMismatch
    | AlreadyAnswered
    | AlreadyDeclined
    | RsvpNotSubmitted
    | RsvpNotAccepted
    | AlreadyApproved
    | AlreadyRejected
    | MissingContactDetails
    | MissingContactMethod
    | NotAPlusOne
    | AccessDenied
    | NoCapacity
    | LimitBelowAssigned
    | CannotChangeStage
    | GrantFailed
    | MissingGuestName
    | MissingPendingContact
    | AutoApprovalIncomplete
    | ParentMissing

  datatype Outcome = Done | Threw(error: Error)

  /** What a service call leaves behind and how it ends. */
  datatype Answer = Answer(state: State, outcome: Outcome)

  // ------------------------------------------------------------ small writes

  function Put(s: State, id: Id, r: Row): State {
    s.(rows := s.rows[id := r])
  }

  function Emit(s: State, f: Fact): State {
    s.(log := s.log + [f])
  }

  function Insert(s: State, r: Row): State {
    s.(rows := s.rows[s.nextId := r], nextId := s.nextId + 1)
  }

  function NewIds(first: Id, count: nat): (ids: set<Id>)
    ensures forall i :: i in ids <==> first <= i < first + count
    ensures |ids| == count
  {
    if count == 0 then {} else NewIds(first, count - 1) + {first + count - 1}
  }

  function RowFor(rs: seq<Row>, first: Id, id: Id): Row
    requires first <= id < first + |rs|
  {
    rs[id - first]
  }

  function NewRows(rs: seq<Row>, first: Id): Rows {
    map i | i in NewIds(first, |rs|) :: RowFor(rs, first, i)
  }

  /** Rows created one after the other in one transaction. */
  function InsertAll(s: State, rs: seq<Row>): State {
    s.(rows := s.rows + NewRows(rs, s.nextId), nextId := s.nextId + |rs|)
  }

  lemma NewRowsSnoc(rs: seq<Row>, first: Id, r: Row)
    ensures NewRows(rs + [r], first) == NewRows(rs, first)[first + |rs| := r]
  {
  }

  /** One more row of the same transaction. */
  lemma InsertAllSnoc(s: State, rs: seq<Row>, r: Row)
    ensures Insert(InsertAll(s, rs), r) == InsertAll(s, rs + [r])
  {
    NewRowsSnoc(rs, s.nextId, r);
    hide NewRows;
    assert s.rows + NewRows(rs + [r], s.nextId) == (s.rows + NewRows(rs, s.nextId))[s.nextId + |rs| := r];
  }

  /** New rows get new ids, so the old ones stay. */
  lemma InsertAllKeepsOld(s: State, rs: seq<Row>, id: Id)
    requires id in s.rows && id < s.nextId
    ensures id in InsertAll(s, rs).rows && InsertAll(s, rs).rows[id] == s.rows[id]
  {
  }

  lemma InsertedAt(s: State, rs: seq<Row>, k: nat)
    requires k < |rs|
    ensures s.nextId + k in InsertAll(s, rs).rows && InsertAll(s, rs).rows[s.nextId + k] == rs[k]
  {
  }

  lemma InsertNone(s: State)
    ensures InsertAll(s, []) == s
  {
  }

  /** `cache.set` under a fresh token, then the same payload and token stored in the row. */
  function Anchor(s: State, id: Id, r: Row, p: Payload): State {
    s.(rows := s.rows[id := r.(pendingId := Some(s.nextToken), payload := Some(p))],
       cache := s.cache[s.nextToken := p],
       nextToken := s.nextToken + 1)
  }

  function Forget(s: State, token: Option<Token>): State {
    if token.Some? then s.(cache := s.cache - {token.value}) else s
  }

  function SettingsOf(s: State, event: EventId): Option<Settings> {
    if event in s.settings then Some(s.settings[event]) else None
  }

  // --------------------------------------------------------------- policies

  predicate ShouldAutoApprove(mode: Option<ApprovalMode>, kind: Kind) {
    mode.Some? && (mode.value.AUTO?
                   || (mode.value.AUTO_PUBLIC_ONLY? && kind.PUBLIC?)
                   || (mode.value.AUTO_INVITE_ONLY? && kind.PRIVATE?))
  }

  function ModeOf(s: State, event: EventId): Option<ApprovalMode> {
    if event in s.settings then Some(s.settings[event].approvalMode) else None
  }

  datatype Phone = Phone(number: string, complete: bool)

  predicate IsSpace(c: char) {
    c == ' ' || c == '\t' || c == '\n' || c == '\r'
  }

  /** `trim().length > 0`. */
  predicate HasText(text: string) {
    exists i :: 0 <= i < |text| && !IsSpace(text[i])
  }

  predicate HasValidPhone(phones: seq<Phone>) {
    exists i :: 0 <= i < |phones| && HasText(phones[i].number)
  }

  datatype PlusOne = PlusOne(firstName: string, lastName: string, hasAge: bool)

  predicate CompletePlusOne(p: PlusOne) {
    p.firstName != "" && p.lastName != "" && p.hasAge
  }

  /** How many elements JavaScript's `slice(0, end)` keeps of `count`; a negative end counts from the back. */
  function Sliced(count: nat, end: int): nat {
    if end >= 0 then (if end < count then end else count)
    else if count + end > 0 then count + end else 0
  }
}
