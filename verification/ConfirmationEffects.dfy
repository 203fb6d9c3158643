/**
 What the confirmation calls do, told from outside: for which rows they act, and
 exactly what is different afterwards.
 */
module ConfirmationEffects {
  import opened Prelude
  import opened Store
  import opened Confirmation

  // ------------------------------------------------------------ reminders

  /** When a preset's reminder is due: 7, 3 or 1 days before the event starts. */
  function DueTime(preset: Preset, startsAt: int): Option<int> {
    match preset
    case WEEK_BEFORE => Some(startsAt - 604_800_000)
    case THREE_DAYS_BEFORE => Some(startsAt - 259_200_000)
    case HOURS_24_BEFORE => Some(startsAt - 86_400_000)
    case OTHER_PRESET => None
  }

  /** One reminder per known preset that is due after `now`, in the order of the list. */
  function Ahead(id: Id, presets: seq<Preset>, startsAt: int, now: int): seq<Fact> {
    if presets == [] then []
    else
      var due := DueTime(presets[0], startsAt);
      (if due.Some? && due.value > now then [ReminderScheduled(id, Some(presets[0]), due.value)] else [])
      + Ahead(id, presets[1..], startsAt, now)
  }

  /** The reminders that belong to a first send for a row of `event`. */
  function Expected(s: State, id: Id, event: EventId): seq<Fact> {
    if event in s.settings && s.settings[event].remindersEnabled && s.settings[event].startsAt.Some?
       && |s.settings[event].presets| > 0
    then Ahead(id, s.settings[event].presets, s.settings[event].startsAt.value, s.now)
    else if s.config.reminderAfterMs > 0 then [ReminderScheduled(id, None, s.now + s.config.reminderAfterMs)]
    else []
  }

  lemma {:induction false} AheadConcat(id: Id, first: seq<Preset>, rest: seq<Preset>, startsAt: int, now: int)
    ensures Ahead(id, first + rest, startsAt, now) == Ahead(id, first, startsAt, now) + Ahead(id, rest, startsAt, now)
    decreases |first|
  {
    if first == [] {
      assert first + rest == rest;
    } else {
      assert (first + rest)[1..] == first[1..] + rest;
      AheadConcat(id, first[1..], rest, startsAt, now);
    }
  }

  lemma {:induction false} PresetsAhead(id: Id, presets: seq<Preset>, startsAt: int, now: int)
    ensures PresetReminders(id, presets, startsAt, now) == Ahead(id, presets, startsAt, now)
    decreases |presets|
  {
    if presets != [] {
      var init, last := presets[..|presets| - 1], presets[|presets| - 1];
      PresetsAhead(id, init, startsAt, now);
      AheadConcat(id, init, [last], startsAt, now);
      assert init + [last] == presets;
      assert Ahead(id, [last][1..], startsAt, now) == [];
    }
  }

  lemma AheadFirst(id: Id, presets: seq<Preset>, startsAt: int, now: int)
    requires presets != []
    ensures var due, rest := DueTime(presets[0], startsAt), Ahead(id, presets[1..], startsAt, now);
      Ahead(id, presets, startsAt, now)
      == if due.Some? && due.value > now then [ReminderScheduled(id, Some(presets[0]), due.value)] + rest else rest
  {
  }

  /** A preset that is due ahead has a reminder as often as the list names it, at its own time. */
  lemma {:induction false} AheadIsComplete(
    id: Id, presets: seq<Preset>, startsAt: int, now: int, preset: Preset, due: int)
    requires DueTime(preset, startsAt) == Some(due) && due > now
    ensures multiset(Ahead(id, presets, startsAt, now))[ReminderScheduled(id, Some(preset), due)]
         == multiset(presets)[preset]
    decreases |presets|
  {
    hide Ahead;
    AheadNone(id, startsAt, now);
    if presets != [] {
      AheadFirst(id, presets, startsAt, now);
      AheadIsComplete(id, presets[1..], startsAt, now, preset, due);
      assert presets == [presets[0]] + presets[1..];
    } else {
      assert presets == [];
    }
  }

  lemma AheadNone(id: Id, startsAt: int, now: int)
    ensures Ahead(id, [], startsAt, now) == []
  {
  }

  lemma RemindersAreExpected(s: State, id: Id)
    requires id in s.rows
    ensures Reminders(s, id) == Expected(s, id, s.rows[id].event)
  {
    var event := s.rows[id].event;
    if event in s.settings && s.settings[event].startsAt.Some? {
      PresetsAhead(id, s.settings[event].presets, s.settings[event].startsAt.value, s.now);
    }
  }

  // ------------------------------------------------------------ first send

  /** A row that may hear from us: no guest linked, approved or accepted. */
  predicate IsReachable(r: Row) {
    r.guest.None? && (r.status == APPROVED || r.status == ACCEPTED)
  }

  /** The contact with the language asked for, if that is one of the two supported. */
  function InLanguage(p: Payload, locale: Option<string>): Payload {
    if locale == Some("de-DE") || locale == Some("en-US") then p.(locale := locale.value) else p
  }

  /**
   A first send acts exactly on a reachable row with a contact, stored or still cached. Then row and cache hold the
   contact under a new token, and the link with the given seat is followed by exactly the expected reminders.
   */
  lemma FirstSend(s: State, id: Id, seat: Option<Seat>, locale: Option<string>)
    ensures var t := SendFirst(s, id, seat, locale);
      if id in s.rows && IsReachable(s.rows[id]) && s.rows[id].pendingId.Some?
         && (s.rows[id].payload.Some? || s.rows[id].pendingId.value in s.cache)
      then
        var r := s.rows[id];
        var p := InLanguage(if r.payload.Some? then r.payload.value else s.cache[r.pendingId.value], locale);
        t == s.(rows := s.rows[id := r.(pendingId := Some(s.nextToken), payload := Some(p), sentAt := Some(s.now))],
                cache := s.cache[s.nextToken := p],
                nextToken := s.nextToken + 1,
                log := s.log + [ConfirmationSent(id, s.nextToken, seat)] + Expected(s, id, r.event))
      else t == s
  {
    if MaySendFirst(s, id) {
      var r := s.rows[id];
      var p := Localized(ResolvePayload(s, r).value, locale);
      var sent := SendLink(s, id, p, seat, false);
      RemindersAreExpected(sent, id);
    }
  }

  lemma SeatRequest(s: State, id: Id)
    ensures RequestSeat(s, id)
         == if id in s.rows && IsReachable(s.rows[id]) then s.(log := s.log + [SeatRequested(id)]) else s
  {
  }

  // ------------------------------------------------------------ resends

  /** The row could be sent its confirmation again, cooldown aside. */
  predicate IsResendable(s: State, id: Id) {
    && id in s.rows && IsReachable(s.rows[id]) && s.rows[id].payload.Some?
    && (s.rows[id].endsAt.Some? ==> s.now < s.rows[id].endsAt.value)
  }

  predicate IsCool(s: State, id: Id) {
    id in s.cooldowns ==> s.cooldowns[id] <= s.now
  }

  /** Each reason for not resending, and no other. */
  lemma ResendReasons(s: State, id: Id)
    ensures var v := ResendVerdict(s, id);
      && (v == NoSuchInvitation <==> id !in s.rows)
      && (v == AlreadyRegistered <==> id in s.rows && s.rows[id].guest.Some?)
      && (v == InvalidStatus <==> id in s.rows && s.rows[id].guest.None?
                                  && s.rows[id].status != APPROVED && s.rows[id].status != ACCEPTED)
      && (v == EventEnded <==> id in s.rows && IsReachable(s.rows[id])
                               && s.rows[id].endsAt.Some? && s.rows[id].endsAt.value <= s.now)
      && (v == RateLimited <==> IsResendable(s, id) && !IsCool(s, id))
      && (v == Resent <==> IsResendable(s, id) && IsCool(s, id))
  {
  }

  /**
   An accepted resend starts the cooldown, rounded up to whole seconds. With a seat in the contact the contact moves
   to a new token and the link with that seat goes out and is counted; without one a seat is asked for.
   */
  lemma ResendEffects(s: State, id: Id, locale: Option<string>)
    ensures var t := Resend(s, id, locale);
      if IsResendable(s, id) && IsCool(s, id) then
        var r := s.rows[id];
        var p := InLanguage(r.payload.value, locale);
        && id in t.cooldowns && t.cooldowns == s.cooldowns[id := t.cooldowns[id]]
        && (t.cooldowns[id] - s.now) % 1000 == 0
        && s.config.cooldownMs <= t.cooldowns[id] - s.now < s.config.cooldownMs + 1000
        && t == if p.seat.Some? then
                  s.(cooldowns := t.cooldowns,
                     rows := s.rows[id := r.(pendingId := Some(s.nextToken), payload := Some(p),
                                             sentAt := Some(s.now), resends := r.resends + 1)],
                     cache := s.cache[s.nextToken := p],
                     nextToken := s.nextToken + 1,
                     log := s.log + [ConfirmationSent(id, s.nextToken, p.seat), ResendAccepted(id, s.now)])
                else s.(cooldowns := t.cooldowns, log := s.log + [SeatRequested(id), ResendAccepted(id, s.now)])
      else t == s
  {
    var ms := s.config.cooldownMs;
    assert -ms == 1000 * ((-ms) / 1000) + (-ms) % 1000;
    if ResendVerdict(s, id).Resent? {
      var p, f := Localized(s.rows[id].payload.value, locale), ResendAccepted(id, s.now);
      var link := ConfirmationSent(id, s.nextToken, p.seat);
      assert s.log + [link] + [f] == s.log + [link, f];
      assert s.log + [SeatRequested(id)] + [f] == s.log + [SeatRequested(id), f];
    }
  }

  // ------------------------------------------------------------ handlers

  /** The event's own cap, or the default one. */
  function CapFor(s: State, event: EventId): int {
    if event in s.settings && s.settings[event].maxResends.Some? then s.settings[event].maxResends.value
    else s.config.maxResends
  }

  /** A reminder for this preset comes before its time. */
  predicate ComesEarly(s: State, event: EventId, preset: Option<Preset>) {
    && event in s.settings && s.settings[event].startsAt.Some? && preset.Some?
    && var due := DueTime(preset.value, s.settings[event].startsAt.value);
    && due.Some? && s.now < due.value
  }

  /** A reminder turns into a resend exactly for a resendable row below its cap, reminders not switched off, in time. */
  lemma ReminderEffects(s: State, id: Id, preset: Option<Preset>)
    ensures Remind(s, id, preset)
         == if IsResendable(s, id)
               && s.rows[id].resends < CapFor(s, s.rows[id].event)
               && (s.rows[id].event in s.settings ==> s.settings[s.rows[id].event].remindersEnabled)
               && !ComesEarly(s, s.rows[id].event, preset)
            then Resend(s, id, None) else s
  {
  }

  /** The delayed ticket job acts only on a row that is still approved, unlinked, named and in contact. */
  lemma TicketEffects(s: State, job: TicketJob)
    ensures GenerateTicket(s, job)
         == if job.id in s.rows && s.rows[job.id].status == APPROVED && s.rows[job.id].guest.None?
               && s.rows[job.id].pendingId.Some? && s.rows[job.id].firstName != "" && s.rows[job.id].lastName != ""
            then (if job.seat.Some? then SendFirst(s, job.id, job.seat, job.locale)
                  else s.(log := s.log + [SeatRequested(job.id)]))
            else s
  {
  }

  /** A reserved seat goes out with the row's link, in the contact's own language. */
  lemma ReservedEffects(s: State, id: Id, seat: Seat)
    ensures HandleReserved(s, id, seat)
         == SendFirst(s.(log := s.log + [SeatReserved(id, seat)]), id, Some(seat), None)
  {
  }
}
