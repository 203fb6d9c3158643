/**
 What no call ever undoes: an answer, a link to a guest, a parent pointer, the
 loss of the pending contact behind an acceptance; and no id comes back.
 Together with what each call adds to the log.
 */
module Evolution {
  import opened Prelude
  import opened Store
  import opened Forest
  import opened Rsvp
  import opened Confirmation
  import opened Operations
  import opened Imports
  import opened System

  predicate HasNoContact(r: Row) {
    r.choice == Some(YES) && r.pendingId.None? && r.payload.None?
  }

  /** What nothing undoes in a row. */
  predicate RowLasts(r: Row, t: Row) {
    && t.parent == r.parent && t.event == r.event && t.kind == r.kind
    && (Answered(r.choice) ==> t.choice == r.choice)
    && (r.guest.Some? ==> t.guest.Some?)
    && (HasNoContact(r) ==> HasNoContact(t))
    && r.resends <= t.resends
  }

  ghost predicate RowsLast(rows: Rows, nextId: Id, later: Rows, laterId: Id) {
    && nextId <= laterId
    && forall id | id in later && id < nextId :: id in rows && RowLasts(rows[id], later[id])
  }

  ghost predicate Lasts(s: State, t: State) {
    RowsLast(s.rows, s.nextId, t.rows, t.nextId)
  }

  /** The same, and no resend was counted. */
  predicate RowEvolves(r: Row, t: Row) {
    RowLasts(r, t) && t.resends == r.resends
  }

  ghost predicate RowsEvolve(rows: Rows, nextId: Id, later: Rows, laterId: Id) {
    && nextId <= laterId
    && forall id | id in later && id < nextId :: id in rows && RowEvolves(rows[id], later[id])
  }

  ghost predicate Evolves(s: State, t: State) {
    RowsEvolve(s.rows, s.nextId, t.rows, t.nextId)
  }

  lemma EvolvesLasts(s: State, t: State)
    requires Evolves(s, t)
    ensures Lasts(s, t)
  {
  }

  lemma LastsSelf(s: State)
    ensures Lasts(s, s)
  {
  }

  lemma LastsTrans(s: State, t: State, u: State)
    requires Lasts(s, t) && Lasts(t, u)
    ensures Lasts(s, u)
  {
  }

  predicate IsQuiet(f: Fact) {
    f.SeatRequested? || f.ReminderScheduled? || f.GuestsDeleted? || f.ApprovedWithSeat? || f.SeatReserved?
  }

  /** The log grew by facts that neither send a link, nor link a guest, nor concern a cooldown. */
  ghost predicate GrewQuietly(before: seq<Fact>, after: seq<Fact>) {
    before <= after && forall k | |before| <= k < |after| :: IsQuiet(after[k])
  }

  lemma EvolvesTrans(s: State, t: State, u: State)
    requires Evolves(s, t) && Evolves(t, u)
    ensures Evolves(s, u)
  {
  }

  lemma PutEvolves(s: State, id: Id, r: Row)
    requires id in s.rows && RowEvolves(s.rows[id], r)
    ensures Evolves(s, Put(s, id, r))
  {
  }

  lemma InsertEvolves(s: State, r: Row)
    ensures Evolves(s, Insert(s, r))
  {
  }

  lemma InsertAllEvolves(s: State, rs: seq<Row>)
    ensures Evolves(s, InsertAll(s, rs))
  {
  }

  lemma AnchorEvolves(s: State, id: Id, r: Row, p: Payload)
    requires id in s.rows && !HasNoContact(s.rows[id])
    requires RowEvolves(s.rows[id], r)
    ensures Evolves(s, Anchor(s, id, r, p))
  {
  }

  lemma CascadeEvolves(s: State, t: State, roots: set<Id>)
    requires t.rows == Cascade(s.rows, roots) && t.nextId == s.nextId
    ensures Evolves(s, t)
  {
  }

  lemma TakeSlotsEvolves(s: State, parent: Id, slots: int)
    requires parent in s.rows
    ensures Evolves(s, TakeSlots(s, parent, slots))
  {
  }

  // ------------------------------------------------------------ confirmation

  ghost predicate OnlyReminders(fs: seq<Fact>) {
    forall k | 0 <= k < |fs| :: fs[k].ReminderScheduled?
  }

  lemma RemindersAreQuiet(s: State, id: Id)
    ensures OnlyReminders(Reminders(s, id))
  {
    var settings := if id in s.rows then SettingsOf(s, s.rows[id].event) else None;
    if UsesPresets(settings) {
      PresetRemindersAreQuiet(id, settings.value.presets, settings.value.startsAt.value, s.now);
    }
  }

  lemma {:induction false} PresetRemindersAreQuiet(id: Id, presets: seq<Preset>, startsAt: int, now: int)
    ensures OnlyReminders(PresetReminders(id, presets, startsAt, now))
    decreases |presets|
  {
    if presets != [] {
      PresetRemindersAreQuiet(id, presets[..|presets| - 1], startsAt, now);
    }
  }

  /** The row a link belongs to: not linked to a guest, approved or accepted, and holding the link's token. */
  predicate LinkFits(r: Row, token: Token) {
    r.guest.None? && Actionable(r.status) && r.pendingId == Some(token)
  }

  /** A first send adds one link, for a row that is actionable and unlinked, and then only reminders. */
  lemma SendFirstEffect(s: State, id: Id, seat: Option<Seat>, locale: Option<string>)
    ensures var t := SendFirst(s, id, seat, locale);
      && Evolves(s, t)
      && t.jobs == s.jobs && t.cooldowns == s.cooldowns && t.now == s.now
      && (!MaySendFirst(s, id) ==> t == s)
      && (MaySendFirst(s, id) ==>
            && GrewQuietly(s.log + [ConfirmationSent(id, s.nextToken, seat)], t.log)
            && id in t.rows && LinkFits(t.rows[id], s.nextToken))
  {
    if MaySendFirst(s, id) {
      var r := s.rows[id];
      var p := Localized(ResolvePayload(s, r).value, locale);
      AnchorEvolves(s, id, r.(sentAt := Some(s.now)), p);
      RemindersAreQuiet(SendLink(s, id, p, seat, false), id);
    }
  }

  /** A resend of `id` would send a link at once and count it, which needs a seat in the stored payload. */
  predicate StoresSeat(s: State, id: Id) {
    id in s.rows && s.rows[id].payload.Some? && s.rows[id].payload.value.seat.Some?
  }

  lemma ResendEffect(s: State, id: Id, locale: Option<string>)
    requires !StoresSeat(s, id)
    ensures Evolves(s, Resend(s, id, locale))
  {
  }

  lemma ApproveEvolves(s: State, a: Approval)
    ensures Evolves(s, Approve(s, a).state)
  {
    hide RowsEvolve;
    EvolvesSelf(s);
    if ApprovalRefusal(s, a).None? {
      var r := s.rows[a.id];
      if a.approve {
        PutEvolves(s, a.id, r.(status := APPROVED, approvedBy := a.actor));
        var marked := MarkApproved(s, a);
        assert Evolves(s, marked);
        SendFirstEffect(marked, a.id, a.seat, a.locale);
        EvolvesTrans(s, marked, SendFirst(marked, a.id, a.seat, a.locale));
      } else {
        PutEvolves(s, a.id, r.(pendingId := None, payload := None, status := REJECTED, approvedBy := a.actor));
      }
    }
  }

  /** An approval that names no seat writes only the status and the approver. */
  lemma SeatlessApproval(s: State, a: Approval)
    requires a.approve && a.seat.None? && ApprovalRefusal(s, a).None?
    ensures var t := Approve(s, a).state;
      t.rows == s.rows[a.id := s.rows[a.id].(status := APPROVED, approvedBy := a.actor)] && t.cache == s.cache
  {
  }

  lemma EvolvesSelf(s: State)
    ensures Evolves(s, s)
  {
  }

  // ------------------------------------------------------------------ guests

  lemma ReplyCommitEvolves(s: State, call: ReplyCall)
    requires ReplyRefusal(s, call).None?
    ensures Evolves(s, ReplyCommit(s, call))
  {
    var r, replied := s.rows[call.id], RepliedRow(s, call);
    var s1 := Put(s, call.id, replied);
    var rs := AcceptedChildren(PRIVATE, r.event, call.id, AllowedPlusOnes(r, call), s.now);
    var t := ReplyCommit(s, call);
    InsertAllEvolves(s1, rs);
    forall id | id in t.rows && id < s.nextId ensures id in s.rows && RowEvolves(s.rows[id], t.rows[id]) {
      assert id !in NewIds(s.nextId, |rs|);
    }
  }

  lemma ReplyEvolves(s: State, call: ReplyCall)
    ensures Evolves(s, Reply(s, call).state)
  {
    hide RowsEvolve;
    EvolvesSelf(s);
    if ReplyRefusal(s, call).None? {
      ReplyCommitEvolves(s, call);
      var r, replied := s.rows[call.id], ReplyCommit(s, call);
      if ReplyAutoApproves(s, call) && r.inviter.Some? {
        var a := AutoApproval(call.id, r.event, r.inviter.value, call.grantSucceeds);
        ApproveEvolves(replied, a);
        EvolvesTrans(s, replied, Approve(replied, a).state);
      }
    }
  }

  lemma CreatePlusOneCommitEvolves(s: State, call: PlusOneCall)
    requires CreatePlusOneRefusal(s, call).None?
    ensures Evolves(s, CreatePlusOneCommit(s, call))
  {
  }

  lemma CreatePlusOneEvolves(s: State, call: PlusOneCall)
    ensures Evolves(s, CreatePlusOne(s, call).state)
  {
    hide RowsEvolve;
    EvolvesSelf(s);
    if CreatePlusOneRefusal(s, call).None? {
      CreatePlusOneCommitEvolves(s, call);
      if PlusOneAutoApproves(s, call) {
        var created := CreatePlusOneCommit(s, call);
        var a := AutoApproval(s.nextId, call.event.value, call.actor.user.value, true);
        ApproveEvolves(created, a);
        EvolvesTrans(s, created, Approve(created, a).state);
      }
    }
  }

  lemma PublicCommitEvolves(s: State, call: PublicCall)
    ensures Evolves(s, PublicCommit(s, call))
  {
  }

  lemma PublicEvolves(s: State, call: PublicCall)
    ensures Evolves(s, PublicRsvp(s, call).state)
  {
    hide RowsEvolve;
    EvolvesSelf(s);
    if PublicRefusal(call).None? {
      PublicCommitEvolves(s, call);
      if PublicRow(s, call).autoApprove {
        var created := PublicCommit(s, call);
        var a := AutoApproval(s.nextId, call.event, SYSTEM_ACTOR, true);
        ApproveEvolves(created, a);
        EvolvesTrans(s, created, Approve(created, a).state);
      }
    }
  }

  lemma DeletePlusOneEvolves(s: State, id: Id, actor: Actor)
    ensures Evolves(s, DeletePlusOne(s, id, actor).state)
  {
    hide RowsEvolve;
    EvolvesSelf(s);
    if ManageRefusal(s, id, actor).None? {
      var s1 := Forget(s, s.rows[id].pendingId).(rows := Cascade(s.rows, {id}));
      CascadeEvolves(s, s1, {id});
      var parent := s.rows[id].parent.value;
      if parent in s1.rows {
        TakeSlotsEvolves(s1, parent, -1);
        EvolvesTrans(s, s1, TakeSlots(s1, parent, -1));
      }
    }
  }

  lemma DeleteAllEvolves(s: State, parent: Id, guests: multiset<UserId>)
    requires parent in s.rows
    ensures Evolves(s, DeleteAllCommit(s, parent, guests))
  {
    hide RowsEvolve;
    var kids := RemovableChildren(s.rows, parent);
    var s1 := s.(rows := Cascade(s.rows, kids), cache := s.cache - PendingOf(s.rows, kids));
    CascadeEvolves(s, s1, kids);
    if parent in s1.rows {
      TakeSlotsEvolves(s1, parent, -|kids|);
      EvolvesTrans(s, s1, TakeSlots(s1, parent, -|kids|));
    }
  }

  // ---------------------------------------------------------------- the step

  lemma DeletesEvolve(s: State, step: Step)
    requires step.DeleteStep? || step.DeleteManyStep? || step.DeleteGuestStep? || step.DeleteEventsStep?
    ensures Evolves(s, Apply(s, step))
  {
    hide RowsEvolve;
    EvolvesSelf(s);
    match step {
      case DeleteStep(id, active) => CascadeEvolves(s, s.(rows := Cascade(s.rows, {id})), {id});
      case DeleteManyStep(list, active) =>
        if DeleteEach(s.rows, list, active).Some? {
          DeleteManyEvolves(s, list, active);
        }
      case DeleteGuestStep(user) => CascadeEvolves(s, Apply(s, step), IdsOfGuest(s.rows, user));
      case DeleteEventsStep(events) => CascadeEvolves(s, Apply(s, step), IdsOfEvents(s.rows, events));
    }
  }

  lemma DeleteManyEvolves(s: State, ids: seq<Id>, active: Option<EventId>)
    requires DeleteEach(s.rows, ids, active).Some?
    ensures Evolves(s, s.(rows := DeleteEach(s.rows, ids, active).value))
  {
    DeleteEachShrinks(s.rows, ids, active);
  }

  lemma {:induction false} DeleteEachShrinks(rows: Rows, ids: seq<Id>, active: Option<EventId>)
    requires DeleteEach(rows, ids, active).Some?
    ensures forall id | id in DeleteEach(rows, ids, active).value ::
      id in rows && DeleteEach(rows, ids, active).value[id] == rows[id]
    decreases |ids|
  {
    if ids != [] {
      DeleteEachShrinks(Cascade(rows, {ids[0]}), ids[1..], active);
    }
  }

  lemma WritesEvolve(s: State, step: Step)
    requires step.UpdatePlusOneStep? || step.LimitStep? || step.LinkStep? || step.StageStep?
             || step.CreateCall? || step.ImportCall? || step.FileStep?
    ensures Evolves(s, Apply(s, step))
  {
    hide RowsEvolve;
    EvolvesSelf(s);
    match step {
      case CreateCall(event, rec) =>
        if event.Some? {
          InsertEvolves(s, CreatedRow(s, event.value, rec));
        }
      case ImportCall(records) => InsertAllEvolves(s, RecordRows(records));
      case FileStep(event, actor, lines) =>
        InsertAllEvolves(s, LineRows(event, actor, Kept(KeysOf(s.rows, event), lines)));
      case UpdatePlusOneStep(id, person, _, _) =>
        if id in s.rows {
          PutEvolves(s, id, s.rows[id].(firstName := person.firstName, lastName := person.lastName));
        }
      case LimitStep(id, total, _) =>
        if id in s.rows {
          PutEvolves(s, id, s.rows[id].(maxInvitees := total - |Children(s.rows, id)|));
        }
      case LinkStep(id, user) =>
        if id in s.rows {
          PutEvolves(s, id, s.rows[id].(guest := Some(user)));
        }
      case StageStep(ids, staged, active) => StageEvolves(s, ids, staged);
    }
  }

  lemma StageEvolves(s: State, ids: set<Id>, staged: bool)
    ensures Evolves(s, s.(rows := StageCommit(s.rows, ids, staged)))
  {
  }

  predicate CountsResend(s: State, step: Step) {
    (step.ResendStep? || step.RemindStep?) && StoresSeat(s, step.id)
  }

  lemma MessagesEvolve(s: State, step: Step)
    requires step.ResendStep? || step.RemindStep? || step.TicketStep? || step.ReservedStep?
    requires !CountsResend(s, step)
    ensures Evolves(s, Apply(s, step))
  {
    hide RowsEvolve;
    EvolvesSelf(s);
    match step {
      case ResendStep(id, locale) => ResendEffect(s, id, locale);
      case RemindStep(id, preset) => ResendEffect(s, id, None);
      case TicketStep(job) => SendFirstEffect(s, job.id, job.seat, job.locale);
      case ReservedStep(id, seat) => SendFirstEffect(Emit(s, SeatReserved(id, seat)), id, Some(seat), None);
    }
  }

  lemma EvolvesStep(s: State, step: Step)
    requires !CountsResend(s, step)
    ensures Evolves(s, Apply(s, step))
  {
    hide RowsEvolve;
    EvolvesSelf(s);
    match step {
      case ReplyStep(call) => ReplyEvolves(s, call);
      case PublicStep(call) => PublicEvolves(s, call);
      case ApproveStep(a) => ApproveEvolves(s, a);
      case CreatePlusOneStep(call) => CreatePlusOneEvolves(s, call);
      case DeletePlusOneStep(id, actor) => DeletePlusOneEvolves(s, id, actor);
      case DeleteAllStep(id, actor, order) =>
        if id in s.rows && Lists(order, RemovableChildren(s.rows, id)) {
          DeleteAllEvolves(s, id, GuestsOf(s.rows, order));
        }
      case TickStep(_) =>
      case SettingsStep(_, _) =>
      case RemoveSettingsStep(_) =>
      case DropCacheStep(_) =>
      case EvictCooldownStep(_) =>
      case _ =>
        if step.ResendStep? || step.RemindStep? || step.TicketStep? || step.ReservedStep? {
          MessagesEvolve(s, step);
        } else if step.DeleteStep? || step.DeleteManyStep? || step.DeleteGuestStep? || step.DeleteEventsStep? {
          DeletesEvolve(s, step);
        } else {
          WritesEvolve(s, step);
        }
    }
  }

  /** A resend changes contact columns, stamp and count of a row that has a contact. */
  lemma ResendLasts(s: State, id: Id, locale: Option<string>)
    ensures Lasts(s, Resend(s, id, locale))
  {
  }

  /** From any state, whatever the step. */
  lemma LastsStep(s: State, step: Step)
    ensures Lasts(s, Apply(s, step))
  {
    hide Evolves;
    hide RowsLast;
    if CountsResend(s, step) {
      LastsSelf(s);
      match step {
        case ResendStep(id, locale) => ResendLasts(s, id, locale);
        case RemindStep(id, _) => ResendLasts(s, id, None);
      }
    } else {
      hide Apply;
      EvolvesStep(s, step);
      EvolvesLasts(s, Apply(s, step));
    }
  }

  /**
   Over every run, from any state: no id is reused, a row keeps its parent, its YES or NO and its link, and an
   acceptance without a stored contact (rejected once, or made by a parent's reply) never gets one again.
   */
  lemma {:induction false} LastsRun(s: State, steps: seq<Step>)
    ensures Lasts(s, Run(s, steps))
    decreases |steps|
  {
    hide RowsLast;
    hide Apply;
    LastsSelf(s);
    if steps != [] {
      var t := Apply(s, steps[0]);
      LastsStep(s, steps[0]);
      LastsRun(t, steps[1..]);
      LastsTrans(s, t, Run(t, steps[1..]));
    }
  }
}
