/** The handlers that drive the confirmation: reminder job, ticket job, seat acknowledgement. */
module Handlers {
  import opened Prelude
  import opened Store
  import opened Confirmation
  import opened Platform
  import opened ConfirmationService

  class Handlers {
    const db: Backend
    const confirmation: GuestConfirmationService

    constructor (confirmation: GuestConfirmationService)
      ensures Valid() && this.confirmation == confirmation
    {
      this.db, this.confirmation := confirmation.db, confirmation;
    }

    ghost predicate Valid() {
      confirmation.db == db
    }

    /** `locked`: another job for this invitation holds the lock. */
    method Remind(id: Id, preset: Option<Preset>, locked: bool)
      requires Valid()
      modifies db
      ensures db.View() == if locked then old(db.View()) else Confirmation.Remind(old(db.View()), id, preset)
    {
      if locked {
        return;
      }
      if id !in db.rows {
        return;
      }
      var r := db.rows[id];
      var settings := if r.event in db.settings then Some(db.settings[r.event]) else None;
      if settings.Some? && !settings.value.remindersEnabled {
        return;
      }
      if settings.Some? && settings.value.startsAt.Some? && preset.Some? {
        var offset := Offset(preset.value);
        if offset.Some? && db.now < settings.value.startsAt.value - offset.value {
          return;
        }
      }
      if r.guest.Some? {
        return;
      }
      if !r.status.APPROVED? && !r.status.ACCEPTED? {
        return;
      }
      if r.endsAt.Some? && r.endsAt.value <= db.now {
        return;
      }
      var maxResends := if settings.Some? && settings.value.maxResends.Some?
        then settings.value.maxResends.value else db.config.maxResends;
      if r.resends >= maxResends {
        return;
      }
      if r.payload.None? {
        return;
      }
      var _ := confirmation.ResendConfirmation(id, None);
    }

    /** The delayed job checks the stored row again before it acts. */
    method GenerateTicket(job: TicketJob, locked: bool)
      requires Valid()
      modifies db
      ensures db.View() == if locked then old(db.View()) else Confirmation.GenerateTicket(old(db.View()), job)
    {
      if locked {
        return;
      }
      if job.id !in db.rows {
        return;
      }
      var r := db.rows[job.id];
      if !r.status.APPROVED? {
        return;
      }
      if r.guest.Some? {
        return;
      }
      if r.pendingId.None? {
        return;
      }
      if r.firstName == "" || r.lastName == "" {
        return;
      }
      var _ := confirmation.SendFirstConfirmationOrReserve(job.id, job.seat, job.locale);
    }

    /** The message arrives, and then the first send runs with its seat. */
    method HandleReserved(id: Id, seat: Seat)
      requires Valid()
      modifies db
      ensures db.View() == Confirmation.HandleReserved(old(db.View()), id, seat)
    {
      db.Send(SeatReserved(id, seat));
      var _ := confirmation.SendFirstConfirmation(id, Some(seat), None);
    }
  }
}
