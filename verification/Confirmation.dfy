/**
 What the guest-confirmation calls do to the store: first send, seat request,
 resend, and the three handlers that drive them.
 */
module Confirmation {
  import opened Prelude
  import opened Store

  predicate Actionable(status: Status) {
    status.APPROVED? || status.ACCEPTED?
  }

  predicate Supported(locale: Option<string>) {
    locale == Some("de-DE") || locale == Some("en-US")
  }

  function Localized(p: Payload, locale: Option<string>): Payload {
    if Supported(locale) then p.(locale := locale.value) else p
  }

  /** The row's own payload first, the cache only when the row has none. */
  function ResolvePayload(s: State, r: Row): Option<Payload> {
    if r.payload.Some? then r.payload
    else if r.pendingId.None? then None
    else if r.pendingId.value in s.cache then Some(s.cache[r.pendingId.value])
    else None
  }

  // -------------------------------------------------------------- reminders

  const HOUR_MS := 60 * 60 * 1000

  function Offset(preset: Preset): Option<int> {
    match preset
    case WEEK_BEFORE => Some(7 * 24 * HOUR_MS)
    case THREE_DAYS_BEFORE => Some(3 * 24 * HOUR_MS)
    case HOURS_24_BEFORE => Some(24 * HOUR_MS)
    case OTHER_PRESET => None
  }

  /** The reminders of the known presets that still lie ahead, in order. */
  function PresetReminders(id: Id, presets: seq<Preset>, startsAt: int, now: int): seq<Fact> {
    if presets == [] then []
    else
      var earlier := PresetReminders(id, presets[..|presets| - 1], startsAt, now);
      var last := presets[|presets| - 1];
      if Offset(last).Some? && startsAt - Offset(last).value - now > 0
      then earlier + [ReminderScheduled(id, Some(last), startsAt - Offset(last).value)]
      else earlier
  }

  predicate UsesPresets(settings: Option<Settings>) {
    && settings.Some?
    && settings.value.remindersEnabled
    && settings.value.startsAt.Some?
    && settings.value.presets != []
  }

  function Reminders(s: State, id: Id): seq<Fact> {
    var settings := if id in s.rows then SettingsOf(s, s.rows[id].event) else None;
    if UsesPresets(settings) then PresetReminders(id, settings.value.presets, settings.value.startsAt.value, s.now)
    else if s.config.reminderAfterMs <= 0 then []
    else [ReminderScheduled(id, None, s.now + s.config.reminderAfterMs)]
  }

  // ------------------------------------------------------------------ sends

  /** Re-anchor the payload under a fresh token, store both in the row, emit the link. */
  function SendLink(s: State, id: Id, p: Payload, offered: Option<Seat>, resend: bool): State
    requires id in s.rows
  {
    var r := s.rows[id];
    var sent := r.(sentAt := Some(s.now), resends := r.resends + if resend then 1 else 0);
    Emit(Anchor(s, id, sent, p), ConfirmationSent(id, s.nextToken, offered))
  }

  predicate MaySendFirst(s: State, id: Id) {
    && id in s.rows
    && s.rows[id].guest.None?
    && Actionable(s.rows[id].status)
    && s.rows[id].pendingId.Some?
    && ResolvePayload(s, s.rows[id]).Some?
  }

  function SendFirst(s: State, id: Id, seat: Option<Seat>, locale: Option<string>): State {
    if !MaySendFirst(s, id) then s
    else
      var p := Localized(ResolvePayload(s, s.rows[id]).value, locale);
      var sent := SendLink(s, id, p, seat, false);
      sent.(log := sent.log + Reminders(sent, id))
  }

  predicate MayRequestSeat(s: State, id: Id) {
    id in s.rows && s.rows[id].guest.None? && Actionable(s.rows[id].status)
  }

  function RequestSeat(s: State, id: Id): State {
    if MayRequestSeat(s, id) then Emit(s, SeatRequested(id)) else s
  }

  function SendOrReserve(s: State, id: Id, seat: Option<Seat>, locale: Option<string>): State {
    if seat.Some? then SendFirst(s, id, seat, locale) else RequestSeat(s, id)
  }

  // ---------------------------------------------------------------- resends

  datatype ResendResult =
    | Resent
    | AlreadyRegistered
    | InvalidStatus
    | EventEnded
    | MissingPayload
    | RateLimited
    | NoSuchInvitation

  predicate InCooldown(s: State, id: Id) {
    id in s.cooldowns && s.now < s.cooldowns[id]
  }

  /** `Math.ceil(ms / 1000)`; Dafny's division already rounds down for a positive divisor. */
  function CeilSeconds(ms: int): int {
    -((-ms) / 1000)
  }

  function ResendVerdict(s: State, id: Id): ResendResult {
    if id !in s.rows then NoSuchInvitation
    else
      var r := s.rows[id];
      if r.guest.Some? then AlreadyRegistered
      else if !Actionable(r.status) then InvalidStatus
      else if r.endsAt.Some? && r.endsAt.value <= s.now then EventEnded
      else if r.payload.None? then MissingPayload
      else if InCooldown(s, id) then RateLimited
      else Resent
  }

  function Resend(s: State, id: Id, locale: Option<string>): State {
    if !ResendVerdict(s, id).Resent? then s
    else
      var p := Localized(s.rows[id].payload.value, locale);
      var cooled := s.(cooldowns := s.cooldowns[id := s.now + CeilSeconds(s.config.cooldownMs) * 1000]);
      var acted := if p.seat.Some? then SendLink(cooled, id, p, p.seat, true) else RequestSeat(cooled, id);
      Emit(acted, ResendAccepted(id, s.now))
  }

  // --------------------------------------------------------------- handlers

  function ReminderCap(s: State, id: Id): int
    requires id in s.rows
  {
    var settings := SettingsOf(s, s.rows[id].event);
    if settings.Some? && settings.value.maxResends.Some? then settings.value.maxResends.value
    else s.config.maxResends
  }

  predicate TooEarly(s: State, settings: Option<Settings>, preset: Option<Preset>) {
    && settings.Some? && settings.value.startsAt.Some? && preset.Some?
    && Offset(preset.value).Some?
    && s.now < settings.value.startsAt.value - Offset(preset.value).value
  }

  /** The guard chain of the reminder job. */
  predicate ReminderFires(s: State, id: Id, preset: Option<Preset>) {
    && id in s.rows
    && var r, settings := s.rows[id], SettingsOf(s, s.rows[id].event);
    && (settings.Some? ==> settings.value.remindersEnabled)
    && !TooEarly(s, settings, preset)
    && r.guest.None?
    && Actionable(r.status)
    && (r.endsAt.Some? ==> s.now < r.endsAt.value)
    && r.resends < ReminderCap(s, id)
    && r.payload.Some?
  }

  function Remind(s: State, id: Id, preset: Option<Preset>): State {
    if ReminderFires(s, id, preset) then Resend(s, id, None) else s
  }

  predicate TicketFires(s: State, id: Id) {
    && id in s.rows
    && var r := s.rows[id];
    && r.status.APPROVED?
    && r.guest.None?
    && r.pendingId.Some?
    && r.firstName != "" && r.lastName != ""
  }

  function GenerateTicket(s: State, job: TicketJob): State {
    if TicketFires(s, job.id) then SendOrReserve(s, job.id, job.seat, job.locale) else s
  }

  function HandleReserved(s: State, id: Id, seat: Seat): State {
    SendFirst(Emit(s, SeatReserved(id, seat)), id, Some(seat), None)
  }

  /**
   Schedule and reminder agree: a preset reminder delivered at its due time or later, under
   unchanged settings, is not turned away as too early, and delivered before it is.
   */
  lemma {:induction false} ScheduledRemindersAreNotEarly(
    s: State, id: Id, presets: seq<Preset>, settings: Settings, k: nat, later: State)
    requires settings.startsAt.Some? && k < |PresetReminders(id, presets, settings.startsAt.value, s.now)|
    ensures var f := PresetReminders(id, presets, settings.startsAt.value, s.now)[k];
      && f.ReminderScheduled? && f.id == id && f.due > s.now
      && f.preset.Some? && f.preset.value in presets
      && (TooEarly(later, Some(settings), f.preset) <==> later.now < f.due)
    decreases |presets|
  {
    var shorter := presets[..|presets| - 1];
    if k < |PresetReminders(id, shorter, settings.startsAt.value, s.now)| {
      ScheduledRemindersAreNotEarly(s, id, shorter, settings, k, later);
    }
  }
}
