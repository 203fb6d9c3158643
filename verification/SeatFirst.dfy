/**
 Seat first: over every run, with messages and jobs late, repeated or out of
 order, no confirmation link goes out without a seat that an approval or the
 Seat service gave this very invitation, and none after a guest was linked.
 */
module SeatFirst {
  import opened Prelude
  import opened Store
  import opened Confirmation
  import opened Operations
  import opened System
  import opened Invariants
  import opened Evolution

  /** `f` gives `seat` to invitation `id`. */
  predicate Grants(f: Fact, id: Id, seat: Seat) {
    f == ApprovedWithSeat(id, seat) || f == SeatReserved(id, seat)
  }

  ghost predicate Granted(log: seq<Fact>, id: Id, seat: Seat) {
    exists j :: 0 <= j < |log| && Grants(log[j], id, seat)
  }

  ghost predicate Linked(log: seq<Fact>, id: Id) {
    exists j :: 0 <= j < |log| && log[j] == GuestLinked(id)
  }

  /**
   The link sent at position `k` carries a seat that was granted before, or that a stored payload named all along,
   and its invitation was not yet linked.
   */
  ghost predicate Justified(log: seq<Fact>, k: nat, stored: set<(Id, Seat)>)
    requires k < |log| && log[k].ConfirmationSent?
  {
    && log[k].offered.Some?
    && (Granted(log[..k], log[k].id, log[k].offered.value) || (log[k].id, log[k].offered.value) in stored)
    && !Linked(log[..k], log[k].id)
  }

  ghost predicate SeatsFirst(log: seq<Fact>, stored: set<(Id, Seat)>) {
    forall k | 0 <= k < |log| && log[k].ConfirmationSent? :: Justified(log, k, stored)
  }

  ghost predicate LogInv(s: State, stored: set<(Id, Seat)>) {
    && SeatsFirst(s.log, stored)
    && (forall id: Id | Linked(s.log, id) :: id < s.nextId && (id in s.rows ==> s.rows[id].guest.Some?))
    && (forall job | job in s.jobs && job.seat.Some? :: Granted(s.log, job.id, job.seat.value))
  }

  // ------------------------------------------------------------- log growth

  lemma GrantedGrows(log: seq<Fact>, more: seq<Fact>, id: Id, seat: Seat)
    requires Granted(log, id, seat) && log <= more
    ensures Granted(more, id, seat)
  {
  }

  lemma LinkedQuietly(log: seq<Fact>, more: seq<Fact>, id: Id)
    requires log <= more && forall k | |log| <= k < |more| :: more[k] != GuestLinked(id)
    ensures Linked(more, id) <==> Linked(log, id)
  {
  }

  lemma SeatsFirstGrows(log: seq<Fact>, more: seq<Fact>, stored: set<(Id, Seat)>)
    requires SeatsFirst(log, stored) && log <= more
    requires forall k | |log| <= k < |more| :: !more[k].ConfirmationSent?
    ensures SeatsFirst(more, stored)
  {
  }

  predicate NoLink(f: Fact) {
    !f.ConfirmationSent? && !f.GuestLinked?
  }

  /** Rows evolve, jobs stay, and the log grows by anything but links and linkings. */
  lemma CalmKeeps(s: State, t: State, stored: set<(Id, Seat)>)
    requires LogInv(s, stored) && Lasts(s, t) && t.jobs == s.jobs
    requires s.log <= t.log && forall k | |s.log| <= k < |t.log| :: NoLink(t.log[k])
    ensures LogInv(t, stored)
  {
    SeatsFirstGrows(s.log, t.log, stored);
    forall id: Id | Linked(t.log, id) ensures id < t.nextId && (id in t.rows ==> t.rows[id].guest.Some?) {
      LinkedQuietly(s.log, t.log, id);
    }
    forall job | job in t.jobs && job.seat.Some? ensures Granted(t.log, job.id, job.seat.value) {
      GrantedGrows(s.log, t.log, job.id, job.seat.value);
    }
  }

  lemma EmitKeeps(s: State, f: Fact, stored: set<(Id, Seat)>)
    requires LogInv(s, stored) && NoLink(f)
    ensures LogInv(Emit(s, f), stored)
  {
    LastsSelf(s);
    CalmKeeps(s, Emit(s, f), stored);
  }

  lemma GrantNow(s: State, f: Fact, id: Id, seat: Seat)
    requires Grants(f, id, seat)
    ensures Granted(Emit(s, f).log, id, seat)
  {
    assert Grants(Emit(s, f).log[|s.log|], id, seat);
  }

  // ------------------------------------------------------------------- sends

  lemma SendFirstKeeps(s: State, id: Id, seat: Seat, locale: Option<string>, stored: set<(Id, Seat)>)
    requires LogInv(s, stored) && Granted(s.log, id, seat)
    ensures LogInv(SendFirst(s, id, Some(seat), locale), stored)
  {
    SendFirstEffect(s, id, Some(seat), locale);
    if MaySendFirst(s, id) {
      var t := SendFirst(s, id, Some(seat), locale);
      var sent := s.log + [ConfirmationSent(id, s.nextToken, Some(seat))];
      LinkIsJustified(s.log, id, s.nextToken, seat, stored);
      SeatsFirstGrows(sent, t.log, stored);
      forall i: Id | Linked(t.log, i) ensures i < t.nextId && (i in t.rows ==> t.rows[i].guest.Some?) {
        LinkedQuietly(s.log, t.log, i);
      }
      forall job | job in t.jobs && job.seat.Some? ensures Granted(t.log, job.id, job.seat.value) {
        GrantedGrows(s.log, t.log, job.id, job.seat.value);
      }
    }
  }

  lemma LinkIsJustified(log: seq<Fact>, id: Id, token: Token, seat: Seat, stored: set<(Id, Seat)>)
    requires SeatsFirst(log, stored) && !Linked(log, id)
    requires Granted(log, id, seat) || (id, seat) in stored
    ensures SeatsFirst(log + [ConfirmationSent(id, token, Some(seat))], stored)
  {
    var more := log + [ConfirmationSent(id, token, Some(seat))];
    forall k | 0 <= k < |more| && more[k].ConfirmationSent? ensures Justified(more, k, stored) {
      if k < |log| {
        assert more[..k] == log[..k] && Justified(log, k, stored);
      } else {
        assert more[..k] == log;
      }
    }
  }

  lemma SendOrReserveKeeps(s: State, id: Id, seat: Option<Seat>, locale: Option<string>, stored: set<(Id, Seat)>)
    requires LogInv(s, stored) && (seat.Some? ==> Granted(s.log, id, seat.value))
    ensures LogInv(SendOrReserve(s, id, seat, locale), stored)
  {
    if seat.Some? {
      SendFirstKeeps(s, id, seat.value, locale, stored);
    } else {
      EmitKeeps(s, SeatRequested(id), stored);
    }
  }

  lemma ApproveKeeps(s: State, a: Approval, stored: set<(Id, Seat)>)
    requires LogInv(s, stored)
    ensures LogInv(Approve(s, a).state, stored)
  {
    hide LogInv;
    if ApprovalRefusal(s, a).None? {
      if a.approve {
        MarkApprovedKeeps(s, a, stored);
        var marked := MarkApproved(s, a);
        SendOrReserveKeeps(marked, a.id, a.seat, a.locale, stored);
        if ReleaseIsScheduled(marked, marked.rows[a.id].event) {
          var due := marked.settings[marked.rows[a.id].event].releaseAt.value;
          JobKeeps(marked, TicketJob(a.id, a.seat, a.locale, due), stored);
        }
      } else {
        ApproveEvolves(s, a);
        EvolvesLasts(s, Reject(s, a));
        CalmKeeps(s, Reject(s, a), stored);
      }
    }
  }

  lemma MarkApprovedKeeps(s: State, a: Approval, stored: set<(Id, Seat)>)
    requires LogInv(s, stored) && a.id in s.rows
    ensures LogInv(MarkApproved(s, a), stored)
    ensures a.seat.Some? ==> Granted(MarkApproved(s, a).log, a.id, a.seat.value)
  {
    var r := s.rows[a.id].(status := APPROVED, approvedBy := a.actor);
    PutEvolves(s, a.id, r);
    EvolvesLasts(s, Put(s, a.id, r));
    CalmKeeps(s, Put(s, a.id, r), stored);
    if a.seat.Some? {
      EmitKeeps(Put(s, a.id, r), ApprovedWithSeat(a.id, a.seat.value), stored);
      GrantNow(Put(s, a.id, r), ApprovedWithSeat(a.id, a.seat.value), a.id, a.seat.value);
    }
  }

  lemma JobKeeps(s: State, job: TicketJob, stored: set<(Id, Seat)>)
    requires LogInv(s, stored) && (job.seat.Some? ==> Granted(s.log, job.id, job.seat.value))
    ensures LogInv(s.(jobs := s.jobs + {job}), stored)
  {
  }

  // --------------------------------------------------------------- the calls

  lemma ReplyKeeps(s: State, call: ReplyCall, stored: set<(Id, Seat)>)
    requires LogInv(s, stored)
    ensures LogInv(Reply(s, call).state, stored)
  {
    hide LogInv;
    if ReplyRefusal(s, call).None? {
      var r, replied := s.rows[call.id], ReplyCommit(s, call);
      ReplyCommitEvolves(s, call);
      EvolvesLasts(s, replied);
      CalmKeeps(s, replied, stored);
      if ReplyAutoApproves(s, call) && r.inviter.Some? {
        ApproveKeeps(replied, AutoApproval(call.id, r.event, r.inviter.value, call.grantSucceeds), stored);
      }
    }
  }

  lemma CreatePlusOneKeeps(s: State, call: PlusOneCall, stored: set<(Id, Seat)>)
    requires LogInv(s, stored)
    ensures LogInv(CreatePlusOne(s, call).state, stored)
  {
    hide LogInv;
    if CreatePlusOneRefusal(s, call).None? {
      var created := CreatePlusOneCommit(s, call);
      CreatePlusOneCommitEvolves(s, call);
      EvolvesLasts(s, created);
      CalmKeeps(s, created, stored);
      if PlusOneAutoApproves(s, call) {
        ApproveKeeps(created, AutoApproval(s.nextId, call.event.value, call.actor.user.value, true), stored);
      }
    }
  }

  lemma PublicKeeps(s: State, call: PublicCall, stored: set<(Id, Seat)>)
    requires LogInv(s, stored)
    ensures LogInv(PublicRsvp(s, call).state, stored)
  {
    hide LogInv;
    if PublicRefusal(call).None? {
      var created := PublicCommit(s, call);
      PublicCommitEvolves(s, call);
      EvolvesLasts(s, created);
      CalmKeeps(s, created, stored);
      if PublicRow(s, call).autoApprove {
        ApproveKeeps(created, AutoApproval(s.nextId, call.event, SYSTEM_ACTOR, true), stored);
      }
    }
  }

  /** The seats that stored payloads name are all in `stored`. */
  ghost predicate SeatsStoredIn(s: State, stored: set<(Id, Seat)>) {
    forall id | id in s.rows && s.rows[id].payload.Some? && s.rows[id].payload.value.seat.Some? ::
      (id, s.rows[id].payload.value.seat.value) in stored
  }

  /** A resend sends a link only with the seat stored in the payload. */
  lemma ResendKeeps(s: State, id: Id, locale: Option<string>, stored: set<(Id, Seat)>)
    requires LogInv(s, stored) && SeatsStoredIn(s, stored)
    ensures LogInv(Resend(s, id, locale), stored)
  {
    if ResendVerdict(s, id).Resent? {
      ResendLasts(s, id, locale);
      if StoresSeat(s, id) {
        ResendLinkKeeps(s, id, locale, stored);
      } else {
        CalmKeeps(s, Resend(s, id, locale), stored);
      }
    }
  }

  lemma ResendLinkKeeps(s: State, id: Id, locale: Option<string>, stored: set<(Id, Seat)>)
    requires LogInv(s, stored) && SeatsStoredIn(s, stored)
    requires ResendVerdict(s, id).Resent? && StoresSeat(s, id) && Lasts(s, Resend(s, id, locale))
    ensures LogInv(Resend(s, id, locale), stored)
  {
    var t, seat := Resend(s, id, locale), s.rows[id].payload.value.seat.value;
    var sent := s.log + [ConfirmationSent(id, s.nextToken, Some(seat))];
    assert t.log == sent + [ResendAccepted(id, s.now)] && t.jobs == s.jobs;
    hide Resend;
    LinkIsJustified(s.log, id, s.nextToken, seat, stored);
    SeatsFirstGrows(sent, t.log, stored);
    forall i: Id | Linked(t.log, i) ensures i < t.nextId && (i in t.rows ==> t.rows[i].guest.Some?) {
      LinkedQuietly(s.log, t.log, i);
    }
    forall job | job in t.jobs && job.seat.Some? ensures Granted(t.log, job.id, job.seat.value) {
      GrantedGrows(s.log, t.log, job.id, job.seat.value);
    }
  }

  lemma LinkKeeps(s: State, id: Id, user: UserId, stored: set<(Id, Seat)>)
    requires LogInv(s, stored) && id in s.rows && id < s.nextId
    ensures LogInv(LinkGuest(s, id, user).state, stored)
  {
    var t := LinkGuest(s, id, user).state;
    SeatsFirstGrows(s.log, t.log, stored);
    forall i: Id | Linked(t.log, i) ensures i < t.nextId && (i in t.rows ==> t.rows[i].guest.Some?) {
      if i != id {
        LinkedQuietly(s.log, t.log, i);
      }
    }
    forall job | job in t.jobs && job.seat.Some? ensures Granted(t.log, job.id, job.seat.value) {
      GrantedGrows(s.log, t.log, job.id, job.seat.value);
    }
  }

  lemma MessagesKeep(s: State, step: Step, stored: set<(Id, Seat)>)
    requires LogInv(s, stored) && SeatsStoredIn(s, stored)
    requires step.ResendStep? || step.RemindStep? || step.TicketStep? || step.ReservedStep?
    ensures LogInv(Apply(s, step), stored)
  {
    hide Resend;
    hide SendFirst;
    match step {
      case ResendStep(id, locale) => ResendKeeps(s, id, locale, stored);
      case RemindStep(id, preset) => ResendKeeps(s, id, None, stored);
      case TicketStep(job) =>
        if job in s.jobs {
          SendOrReserveKeeps(s, job.id, job.seat, job.locale, stored);
        }
      case ReservedStep(id, seat) =>
        EmitKeeps(s, SeatReserved(id, seat), stored);
        GrantNow(s, SeatReserved(id, seat), id, seat);
        SendFirstKeeps(Emit(s, SeatReserved(id, seat)), id, seat, None, stored);
    }
  }

  predicate IsSending(step: Step) {
    || step.ReplyStep? || step.PublicStep? || step.ApproveStep? || step.CreatePlusOneStep?
    || step.ResendStep? || step.RemindStep? || step.TicketStep? || step.ReservedStep?
  }

  lemma OtherStepsAreCalm(s: State, step: Step)
    requires !IsSending(step) && !step.DeletePlusOneStep? && !step.DeleteAllStep?
    requires step.LinkStep? ==> step.id !in s.rows
    ensures Apply(s, step).jobs == s.jobs
    ensures Apply(s, step).log == s.log
         || (step.EvictCooldownStep? && Apply(s, step).log == s.log + [CooldownEvicted(step.id)])
  {
  }

  /** Only rows, cache and log may differ, and the log at most by one request to delete guests. */
  ghost predicate OnlyRemoved(s: State, t: State) {
    && t == s.(rows := t.rows, cache := t.cache, log := t.log)
    && (t.log == s.log || exists users :: t.log == s.log + [GuestsDeleted(users)])
  }

  lemma PlusOneRemovalIsCalm(s: State, id: Id)
    requires id in s.rows && s.rows[id].parent.Some?
    ensures OnlyRemoved(s, DeletePlusOneCommit(s, id))
  {
  }

  lemma BulkRemovalIsCalm(s: State, parent: Id, guests: multiset<UserId>)
    requires parent in s.rows
    ensures OnlyRemoved(s, DeleteAllCommit(s, parent, guests))
  {
  }

  lemma RemovalsAreCalm(s: State, step: Step)
    requires step.DeletePlusOneStep? || step.DeleteAllStep?
    ensures OnlyRemoved(s, Apply(s, step))
  {
    hide DeletePlusOneCommit;
    hide DeleteAllCommit;
    match step {
      case DeletePlusOneStep(id, actor) =>
        if ManageRefusal(s, id, actor).None? {
          PlusOneRemovalIsCalm(s, id);
        }
      case DeleteAllStep(id, _, order) =>
        if id in s.rows {
          BulkRemovalIsCalm(s, id, GuestsOf(s.rows, order));
        }
    }
  }

  lemma OthersKeep(s: State, step: Step, stored: set<(Id, Seat)>)
    requires LogInv(s, stored) && !IsSending(step) && (step.LinkStep? ==> step.id !in s.rows)
    ensures LogInv(Apply(s, step), stored)
  {
    hide LogInv;
    hide RowsLast;
    hide Apply;
    LastsStep(s, step);
    if step.DeletePlusOneStep? || step.DeleteAllStep? {
      RemovalsAreCalm(s, step);
    } else {
      OtherStepsAreCalm(s, step);
    }
    CalmKeeps(s, Apply(s, step), stored);
  }

  /**
   From any state, whatever the step: if the links so far were justified and every scheduled job's seat was granted,
   then the same holds after it, where a resend may use a seat that the row's payload already named.
   */
  lemma LogStep(s: State, step: Step, stored: set<(Id, Seat)>)
    requires LogInv(s, stored) && SeatsStoredIn(s, stored) && (forall id | id in s.rows :: id < s.nextId)
    ensures LogInv(Apply(s, step), stored)
  {
    hide LogInv;
    if step.LinkStep? && step.id in s.rows {
      LinkKeeps(s, step.id, step.user, stored);
    } else if !IsSending(step) {
      OthersKeep(s, step, stored);
    } else {
      match step {
        case ReplyStep(call) => ReplyKeeps(s, call, stored);
        case PublicStep(call) => PublicKeeps(s, call, stored);
        case ApproveStep(a) => ApproveKeeps(s, a, stored);
        case CreatePlusOneStep(call) => CreatePlusOneKeeps(s, call, stored);
        case _ => MessagesKeep(s, step, stored);
      }
    }
  }

  lemma {:induction false} LogRun(s: State, steps: seq<Step>, stored: set<(Id, Seat)>)
    requires LogInv(s, stored) && StoreInv(s)
    ensures LogInv(Run(s, steps), stored)
    decreases |steps|
  {
    hide LogInv;
    if steps != [] {
      StoreFacts(s, stored);
      LogStep(s, steps[0], stored);
      StoreStep(s, steps[0]);
      LogRun(Apply(s, steps[0]), steps[1..], stored);
    }
  }

  lemma StoreFacts(s: State, stored: set<(Id, Seat)>)
    requires StoreInv(s)
    ensures SeatsStoredIn(s, stored) && forall id | id in s.rows :: id < s.nextId
  {
  }

  /**
   Every run from the empty store: a link carries a seat that an explicit approval or a `seat.reserved`
   gave the same invitation earlier, and none goes out after the invitation was linked to a guest.
   */
  lemma NoLinkWithoutSeat(now: int, config: Config, steps: seq<Step>, k: nat)
    requires var log := Run(Initial(now, config), steps).log;
      k < |log| && log[k].ConfirmationSent?
    ensures var log := Run(Initial(now, config), steps).log;
      && log[k].offered.Some?
      && (exists j :: 0 <= j < k && Grants(log[j], log[k].id, log[k].offered.value))
      && (forall j | 0 <= j < k :: log[j] != GuestLinked(log[k].id))
  {
    var s := Initial(now, config);
    var log := Run(s, steps).log;
    LogRun(s, steps, {});
    assert Justified(log, k, {});
    var j :| 0 <= j < k && Grants(log[..k][j], log[k].id, log[k].offered.value);
    assert Grants(log[j], log[k].id, log[k].offered.value);
    forall j | 0 <= j < k ensures log[j] != GuestLinked(log[k].id) {
      assert log[..k][j] == log[j];
    }
  }

  // ------------------------------------------- the row behind a link

  /** From position `from` on, every link's row is unlinked, approved or accepted, and holds its token. */
  ghost predicate LinksFit(t: State, from: nat) {
    forall k | from <= k < |t.log| && t.log[k].ConfirmationSent? ::
      t.log[k].id in t.rows && LinkFits(t.rows[t.log[k].id], t.log[k].token)
  }

  ghost predicate NoNewLinks(s: State, t: State) {
    s.log <= t.log && forall k | |s.log| <= k < |t.log| :: !t.log[k].ConfirmationSent?
  }

  lemma SendFirstFits(s: State, id: Id, seat: Option<Seat>, locale: Option<string>)
    ensures s.log <= SendFirst(s, id, seat, locale).log && LinksFit(SendFirst(s, id, seat, locale), |s.log|)
  {
    SendFirstEffect(s, id, seat, locale);
  }

  lemma SendOrReserveFits(s: State, id: Id, seat: Option<Seat>, locale: Option<string>)
    ensures s.log <= SendOrReserve(s, id, seat, locale).log
    ensures LinksFit(SendOrReserve(s, id, seat, locale), |s.log|)
    ensures seat.None? ==> NoNewLinks(s, SendOrReserve(s, id, seat, locale))
  {
    SendFirstFits(s, id, seat, locale);
  }

  lemma FitsLater(s: State, t: State, from: nat)
    requires from <= |s.log| && LinksFit(t, |s.log|) && s.log <= t.log
    requires forall k | from <= k < |s.log| :: !t.log[k].ConfirmationSent?
    ensures LinksFit(t, from)
  {
  }

  lemma ApproveFits(s: State, a: Approval)
    ensures s.log <= Approve(s, a).state.log && LinksFit(Approve(s, a).state, |s.log|)
    ensures a.seat.None? ==> NoNewLinks(s, Approve(s, a).state)
  {
    hide SendOrReserve;
    hide LinkFits;
    if ApprovalRefusal(s, a).None? && a.approve {
      var marked := MarkApproved(s, a);
      assert marked.log == if a.seat.Some? then s.log + [ApprovedWithSeat(a.id, a.seat.value)] else s.log;
      SendOrReserveFits(marked, a.id, a.seat, a.locale);
      FitsLater(marked, SendOrReserve(marked, a.id, a.seat, a.locale), |s.log|);
    }
  }

  lemma ResendFits(s: State, id: Id, locale: Option<string>)
    ensures s.log <= Resend(s, id, locale).log && LinksFit(Resend(s, id, locale), |s.log|)
  {
  }

  lemma ReplySendsNothing(s: State, call: ReplyCall)
    ensures NoNewLinks(s, Reply(s, call).state)
  {
    if ReplyRefusal(s, call).None? && ReplyAutoApproves(s, call) && s.rows[call.id].inviter.Some? {
      var r := s.rows[call.id];
      ApproveFits(ReplyCommit(s, call), AutoApproval(call.id, r.event, r.inviter.value, call.grantSucceeds));
    }
  }

  lemma PublicSendsNothing(s: State, call: PublicCall)
    ensures NoNewLinks(s, PublicRsvp(s, call).state)
  {
    if PublicRefusal(call).None? {
      ApproveFits(PublicCommit(s, call), AutoApproval(s.nextId, call.event, SYSTEM_ACTOR, true));
    }
  }

  lemma CreatePlusOneSendsNothing(s: State, call: PlusOneCall)
    ensures NoNewLinks(s, CreatePlusOne(s, call).state)
  {
    if CreatePlusOneRefusal(s, call).None? && PlusOneAutoApproves(s, call) {
      ApproveFits(CreatePlusOneCommit(s, call), AutoApproval(s.nextId, call.event.value, call.actor.user.value, true));
    }
  }

  lemma OthersSendNothing(s: State, step: Step)
    requires !IsSending(step)
    ensures NoNewLinks(s, Apply(s, step))
  {
    if step.DeletePlusOneStep? || step.DeleteAllStep? {
      RemovalsAreCalm(s, step);
    } else if !(step.LinkStep? && step.id in s.rows) {
      OtherStepsAreCalm(s, step);
    }
  }

  lemma NothingFits(s: State, t: State)
    requires NoNewLinks(s, t)
    ensures s.log <= t.log && LinksFit(t, |s.log|)
  {
  }

  lemma MessagesFit(s: State, step: Step)
    requires step.ResendStep? || step.RemindStep? || step.TicketStep? || step.ReservedStep?
    ensures s.log <= Apply(s, step).log && LinksFit(Apply(s, step), |s.log|)
  {
    hide Resend;
    hide SendFirst;
    match step {
      case ResendStep(id, locale) => ResendFits(s, id, locale);
      case RemindStep(id, _) => ResendFits(s, id, None);
      case TicketStep(job) => SendOrReserveFits(s, job.id, job.seat, job.locale);
      case ReservedStep(id, seat) =>
        var noted := Emit(s, SeatReserved(id, seat));
        SendFirstFits(noted, id, Some(seat), None);
        FitsLater(noted, SendFirst(noted, id, Some(seat), None), |s.log|);
    }
  }

  /** Whatever the call or message: a link goes out only for a row that is then unlinked and approved or accepted. */
  lemma SentWhileActionable(s: State, step: Step)
    ensures s.log <= Apply(s, step).log && LinksFit(Apply(s, step), |s.log|)
  {
    hide LinksFit;
    hide NoNewLinks;
    if !IsSending(step) {
      OthersSendNothing(s, step);
      NothingFits(s, Apply(s, step));
    } else {
      match step {
        case ApproveStep(a) => ApproveFits(s, a);
        case ReplyStep(call) =>
          ReplySendsNothing(s, call);
          NothingFits(s, Apply(s, step));
        case PublicStep(call) =>
          PublicSendsNothing(s, call);
          NothingFits(s, Apply(s, step));
        case CreatePlusOneStep(call) =>
          CreatePlusOneSendsNothing(s, call);
          NothingFits(s, Apply(s, step));
        case _ => MessagesFit(s, step);
      }
    }
  }

  /**
   An acceptance without a stored contact, that is one that was ever rejected or that a parent's
   reply or a public RSVP created as a plus-one, never gets a confirmation link of its own, from any state,
   whatever happens later.
   */
  lemma {:induction false} NoContactNoLink(s: State, steps: seq<Step>, id: Id, k: nat)
    requires id < s.nextId && (id in s.rows ==> HasNoContact(s.rows[id]))
    requires |s.log| <= k < |Run(s, steps).log|
    ensures !(Run(s, steps).log[k].ConfirmationSent? && Run(s, steps).log[k].id == id)
    decreases |steps|
  {
    hide Apply;
    if steps != [] {
      var t := Apply(s, steps[0]);
      LastsStep(s, steps[0]);
      SentWhileActionable(s, steps[0]);
      LogOnlyGrows(t, steps[1..]);
      if k >= |t.log| {
        NoContactNoLink(t, steps[1..], id, k);
      } else {
        assert Run(s, steps).log[k] == t.log[k];
      }
    }
  }

  lemma {:induction false} LogOnlyGrows(s: State, steps: seq<Step>)
    ensures s.log <= Run(s, steps).log
    decreases |steps|
  {
    if steps != [] {
      SentWhileActionable(s, steps[0]);
      LogOnlyGrows(Apply(s, steps[0]), steps[1..]);
    }
  }
}
