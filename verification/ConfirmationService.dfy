/** `GuestConfirmationService` as it runs, proved against `Confirmation`. */
module ConfirmationService {
  import opened Prelude
  import opened Store
  import opened Confirmation
  import opened Platform

  class GuestConfirmationService {
    const db: Backend

    constructor (db: Backend)
      ensures this.db == db
    {
      this.db := db;
    }

    /** Cache entry, row and message of one link, in this order. */
    method Emit(id: Id, p: Payload, offered: Option<Seat>, resend: bool)
      requires id in db.rows
      modifies db
      ensures db.View() == SendLink(old(db.View()), id, p, offered, resend)
    {
      var token := db.CacheSet(p);
      var r := db.rows[id];
      db.Update(id, r.(pendingId := Some(token), payload := Some(p), sentAt := Some(db.now),
                       resends := r.resends + if resend then 1 else 0));
      db.Send(ConfirmationSent(id, token, offered));
    }

    method ResolvePendingContactPayload(r: Row) returns (p: Option<Payload>)
      ensures p == ResolvePayload(db.View(), r)
    {
      if r.payload.Some? {
        return r.payload;
      }
      if r.pendingId.None? {
        return None;
      }
      if r.pendingId.value !in db.cache {
        return None;
      }
      return Some(db.cache[r.pendingId.value]);
    }

    /** True exactly when a link went out. */
    method SendFirstConfirmation(id: Id, seat: Option<Seat>, locale: Option<string>) returns (sent: bool)
      modifies db
      ensures sent <==> MaySendFirst(old(db.View()), id)
      ensures db.View() == SendFirst(old(db.View()), id, seat, locale)
    {
      if id !in db.rows {
        return false;
      }
      var r := db.rows[id];
      if r.guest.Some? {
        return false;
      }
      if !r.status.APPROVED? && !r.status.ACCEPTED? {
        return false;
      }
      if r.pendingId.None? {
        return false;
      }
      var resolved := ResolvePendingContactPayload(r);
      if resolved.None? {
        return false;
      }
      var p := resolved.value;
      if Supported(locale) {
        p := p.(locale := locale.value);
      }
      Emit(id, p, seat, false);
      ScheduleReminders(id);
      sent := true;
    }

    /** First the reminders still ahead are collected, then each is scheduled. */
    method ScheduleReminders(id: Id)
      modifies db
      ensures db.View() == old(db.View()).(log := old(db.log) + Reminders(old(db.View()), id))
    {
      var settings := if id in db.rows && db.rows[id].event in db.settings
        then Some(db.settings[db.rows[id].event]) else None;
      if settings.Some? && settings.value.remindersEnabled && settings.value.startsAt.Some?
         && |settings.value.presets| > 0 {
        var presets, startsAt := settings.value.presets, settings.value.startsAt.value;
        var scheduled: seq<Fact> := [];
        for i := 0 to |presets|
          invariant scheduled == PresetReminders(id, presets[..i], startsAt, db.now)
        {
          assert presets[..i + 1][..i] == presets[..i];
          var offset := Offset(presets[i]);
          if offset.Some? {
            var delay := startsAt - offset.value - db.now;
            if delay > 0 {
              scheduled := scheduled + [ReminderScheduled(id, Some(presets[i]), db.now + delay)];
            }
          }
        }
        assert presets[..|presets|] == presets;
        for i := 0 to |scheduled|
          invariant db.View() == old(db.View()).(log := old(db.log) + scheduled[..i])
        {
          assert scheduled[..i + 1] == scheduled[..i] + [scheduled[i]];
          db.Send(scheduled[i]);
        }
        assert scheduled[..|scheduled|] == scheduled;
        return;
      }
      if db.config.reminderAfterMs <= 0 {
        return;
      }
      db.Send(ReminderScheduled(id, None, db.now + db.config.reminderAfterMs));
    }

    method RequestSeatReservation(id: Id) returns (requested: bool)
      modifies db
      ensures requested <==> MayRequestSeat(old(db.View()), id)
      ensures db.View() == RequestSeat(old(db.View()), id)
    {
      if id !in db.rows {
        return false;
      }
      var r := db.rows[id];
      if r.guest.Some? {
        return false;
      }
      if !r.status.APPROVED? && !r.status.ACCEPTED? {
        return false;
      }
      db.Send(SeatRequested(id));
      return true;
    }

    method SendFirstConfirmationOrReserve(id: Id, seat: Option<Seat>, locale: Option<string>) returns (acted: bool)
      modifies db
      ensures acted <==> if seat.Some? then MaySendFirst(old(db.View()), id) else MayRequestSeat(old(db.View()), id)
      ensures db.View() == SendOrReserve(old(db.View()), id, seat, locale)
    {
      if seat.Some? {
        acted := SendFirstConfirmation(id, seat, locale);
      } else {
        acted := RequestSeatReservation(id);
      }
    }

    /** The cooldown key is set before anything is sent. */
    method ResendConfirmation(id: Id, locale: Option<string>) returns (result: ResendResult)
      modifies db
      ensures result == ResendVerdict(old(db.View()), id)
      ensures db.View() == Resend(old(db.View()), id, locale)
    {
      hide SendLink;
      hide RequestSeat;
      hide MayRequestSeat;
      if id !in db.rows {
        return NoSuchInvitation;
      }
      var r := db.rows[id];
      if r.guest.Some? {
        return AlreadyRegistered;
      }
      if !r.status.APPROVED? && !r.status.ACCEPTED? {
        return InvalidStatus;
      }
      if r.endsAt.Some? && r.endsAt.value <= db.now {
        return EventEnded;
      }
      if r.payload.None? {
        return MissingPayload;
      }
      var p := r.payload.value;
      if Supported(locale) {
        p := p.(locale := locale.value);
      }
      if id in db.cooldowns && db.now < db.cooldowns[id] {
        return RateLimited;
      }
      var seconds := CeilSeconds(db.config.cooldownMs);
      var at := db.now;
      db.cooldowns := db.cooldowns[id := at + seconds * 1000];
      assert db.View() == old(db.View()).(cooldowns := old(db.cooldowns)[id := old(db.now) + seconds * 1000]);
      if p.seat.Some? {
        Emit(id, p, p.seat, true);
      } else {
        var _ := RequestSeatReservation(id);
      }
      db.Send(ResendAccepted(id, at));
      result := Resent;
    }
  }
}
