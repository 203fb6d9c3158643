/**
 The service as a whole: one call, message, job or outside event at a time, in
 any order.  Messages and jobs may arrive late, twice, or out of order; cache
 entries and cooldown keys may disappear at any moment.
 */
module System {
  import opened Prelude
  import opened Store
  import opened Confirmation
  import opened Operations
  import opened Imports

  datatype Step =
    | CreateCall(event: Option<EventId>, rec: Record)
    | ImportCall(records: seq<Record>)
    | FileStep(target: EventId, importer: UserId, lines: seq<Line>)
    | ReplyStep(reply: ReplyCall)
    | PublicStep(public: PublicCall)
    | ApproveStep(approval: Approval)
    | StageStep(ids: set<Id>, staged: bool, active: Option<EventId>)
    | CreatePlusOneStep(plusOne: PlusOneCall)
    | UpdatePlusOneStep(id: Id, person: PlusOne, phones: seq<Phone>, actor: Actor)
    | DeletePlusOneStep(id: Id, actor: Actor)
    | DeleteAllStep(id: Id, actor: Actor, order: seq<Id>)
    | LimitStep(id: Id, total: int, active: Option<EventId>)
    | DeleteStep(id: Id, active: Option<EventId>)
    | DeleteManyStep(list: seq<Id>, active: Option<EventId>)
    | DeleteGuestStep(user: UserId)
    | DeleteEventsStep(events: set<EventId>)
    | LinkStep(id: Id, user: UserId)
    | ResendStep(id: Id, locale: Option<string>)
    | RemindStep(id: Id, preset: Option<Preset>)
    | TicketStep(job: TicketJob)
    | ReservedStep(id: Id, seat: Seat)
    | TickStep(ms: nat)
    | SettingsStep(changed: EventId, settings: Settings)
    | RemoveSettingsStep(removed: set<EventId>)
    | DropCacheStep(token: Token)
    | EvictCooldownStep(id: Id)

  ghost function Respond(s: State, step: Step): Answer {
    match step
    case CreateCall(event, rec) => Create(s, event, rec)
    case ImportCall(records) => ImportMany(s, records)
    case FileStep(event, actor, lines) => Answer(ImportFile(s, event, actor, lines), Done)
    case ReplyStep(call) => Reply(s, call)
    case PublicStep(call) => PublicRsvp(s, call)
    case ApproveStep(a) => Approve(s, a)
    case StageStep(ids, staged, active) => Stage(s, ids, staged, active)
    case CreatePlusOneStep(call) => CreatePlusOne(s, call)
    case UpdatePlusOneStep(id, person, phones, actor) => UpdatePlusOne(s, id, person, phones, actor)
    case DeletePlusOneStep(id, actor) => DeletePlusOne(s, id, actor)
    case DeleteAllStep(id, actor, order) =>
      if id in s.rows && !Lists(order, RemovableChildren(s.rows, id)) then Answer(s, Done)
      else DeleteAllPlusOnes(s, id, actor, order)
    case LimitStep(id, total, active) => UpdateLimit(s, id, total, active)
    case DeleteStep(id, active) => DeleteOne(s, id, active)
    case DeleteManyStep(list, active) => DeleteMany(s, list, active)
    case DeleteGuestStep(user) => Answer(DeleteIds(s, IdsOfGuest(s.rows, user)), Done)
    case DeleteEventsStep(events) => Answer(DeleteIds(s, IdsOfEvents(s.rows, events)), Done)
    case LinkStep(id, user) => LinkGuest(s, id, user)
    case ResendStep(id, locale) => Answer(Resend(s, id, locale), Done)
    case RemindStep(id, preset) => Answer(Remind(s, id, preset), Done)
    case TicketStep(job) => Answer(if job in s.jobs then GenerateTicket(s, job) else s, Done)
    case ReservedStep(id, seat) => Answer(HandleReserved(s, id, seat), Done)
    case TickStep(ms) => Answer(s.(now := s.now + ms), Done)
    case SettingsStep(event, settings) => Answer(s.(settings := s.settings[event := settings]), Done)
    case RemoveSettingsStep(events) => Answer(s.(settings := s.settings - events), Done)
    case DropCacheStep(token) => Answer(s.(cache := s.cache - {token}), Done)
    case EvictCooldownStep(id) => Answer(Emit(s.(cooldowns := s.cooldowns - {id}), CooldownEvicted(id)), Done)
  }

  ghost function Apply(s: State, step: Step): State {
    Respond(s, step).state
  }

  ghost function Run(s: State, steps: seq<Step>): State
    decreases |steps|
  {
    if steps == [] then s else Run(Apply(s, steps[0]), steps[1..])
  }

  lemma {:induction false} RunConcat(s: State, first: seq<Step>, second: seq<Step>)
    ensures Run(s, first + second) == Run(Run(s, first), second)
    decreases |first|
  {
    if first == [] {
      assert [] + second == second;
    } else {
      assert (first + second)[1..] == first[1..] + second;
      RunConcat(Apply(s, first[0]), first[1..], second);
    }
  }
}
