/**
 The stored payload against the cache, the cooldown between resends, and the
 cap on reminders.
 */
module Resends {
  import opened Prelude
  import opened Store
  import opened Forest
  import opened Confirmation
  import opened Operations
  import opened System
  import opened Invariants
  import opened Evolution
  import opened SeatFirst

  /**
   In a reachable store the first send never needs the cache: with any other cache content,
   expired or deleted included, it decides the same, writes the same rows and emits the same link.
   */
  lemma FirstSendIgnoresTheCache(
    s: State, cache: map<Token, Payload>, id: Id, seat: Option<Seat>, locale: Option<string>)
    requires StoreInv(s)
    ensures var t, u := SendFirst(s, id, seat, locale), SendFirst(s.(cache := cache), id, seat, locale);
      t.rows == u.rows && t.log == u.log && t.nextToken == u.nextToken
    ensures MaySendFirst(s, id) <==>
      id in s.rows && s.rows[id].guest.None? && Actionable(s.rows[id].status) && s.rows[id].pendingId.Some?
  {
    if id in s.rows {
      RowIsOk(s, id);
    }
  }

  // ---------------------------------------------------------------- cooldown

  ghost predicate EvictedSince(log: seq<Fact>, id: Id, k: nat) {
    exists j :: k < j < |log| && log[j] == CooldownEvicted(id)
  }

  /** The cooldown key set by the resend accepted at position `k` is still there, unless it was evicted since. */
  ghost predicate CooldownHeld(s: State, k: nat)
    requires k < |s.log| && s.log[k].ResendAccepted?
  {
    && s.log[k].at <= s.now
    && (EvictedSince(s.log, s.log[k].id, k)
        || (s.log[k].id in s.cooldowns && s.cooldowns[s.log[k].id] >= s.log[k].at + s.config.cooldownMs))
  }

  ghost predicate CooldownInv(s: State) {
    forall k | 0 <= k < |s.log| && s.log[k].ResendAccepted? :: CooldownHeld(s, k)
  }

  /** Nothing about cooldowns happened: the keys stand, and the new facts concern other things. */
  ghost predicate CooldownsUntouched(s: State, t: State) {
    && t.cooldowns == s.cooldowns && t.config == s.config && t.settings == s.settings && t.now == s.now
    && s.log <= t.log
    && forall k | |s.log| <= k < |t.log| :: !t.log[k].ResendAccepted? && !t.log[k].CooldownEvicted?
  }

  lemma UntouchedTrans(s: State, t: State, u: State)
    requires CooldownsUntouched(s, t) && CooldownsUntouched(t, u)
    ensures CooldownsUntouched(s, u)
  {
  }

  lemma EvictedGrows(log: seq<Fact>, more: seq<Fact>, id: Id, k: nat)
    requires log <= more && EvictedSince(log, id, k)
    ensures EvictedSince(more, id, k)
  {
  }

  lemma UntouchedKeeps(s: State, t: State)
    requires CooldownInv(s) && CooldownsUntouched(s, t)
    ensures CooldownInv(t)
  {
  }

  lemma SendFirstUntouched(s: State, id: Id, seat: Option<Seat>, locale: Option<string>)
    ensures CooldownsUntouched(s, SendFirst(s, id, seat, locale))
  {
    SendFirstEffect(s, id, seat, locale);
  }

  lemma ApproveUntouched(s: State, a: Approval)
    ensures CooldownsUntouched(s, Approve(s, a).state)
  {
    if ApprovalRefusal(s, a).None? && a.approve {
      hide SendFirst;
      var marked := MarkApproved(s, a);
      assert CooldownsUntouched(s, marked);
      SendFirstUntouched(marked, a.id, a.seat, a.locale);
      UntouchedTrans(s, marked, SendFirst(marked, a.id, a.seat, a.locale));
    }
  }

  lemma ReplyUntouched(s: State, call: ReplyCall)
    ensures CooldownsUntouched(s, Reply(s, call).state)
  {
    hide Approve;
    if ReplyRefusal(s, call).None? {
      var r, replied := s.rows[call.id], ReplyCommit(s, call);
      if ReplyAutoApproves(s, call) && r.inviter.Some? {
        ApproveUntouched(replied, AutoApproval(call.id, r.event, r.inviter.value, call.grantSucceeds));
      }
    }
  }

  lemma PublicUntouched(s: State, call: PublicCall)
    ensures CooldownsUntouched(s, PublicRsvp(s, call).state)
  {
    hide Approve;
    ApproveUntouched(PublicCommit(s, call), AutoApproval(s.nextId, call.event, SYSTEM_ACTOR, true));
  }

  lemma CreatePlusOneUntouched(s: State, call: PlusOneCall)
    ensures CooldownsUntouched(s, CreatePlusOne(s, call).state)
  {
    hide Approve;
    if CreatePlusOneRefusal(s, call).None? && PlusOneAutoApproves(s, call) {
      ApproveUntouched(CreatePlusOneCommit(s, call),
        AutoApproval(s.nextId, call.event.value, call.actor.user.value, true));
    }
  }

  lemma MessagesUntouched(s: State, step: Step)
    requires step.TicketStep? || step.ReservedStep?
    ensures CooldownsUntouched(s, Apply(s, step))
  {
    hide SendFirst;
    match step {
      case TicketStep(job) => SendFirstUntouched(s, job.id, job.seat, job.locale);
      case ReservedStep(id, seat) =>
        var noted := Emit(s, SeatReserved(id, seat));
        SendFirstUntouched(noted, id, Some(seat), None);
        UntouchedTrans(s, noted, SendFirst(noted, id, Some(seat), None));
    }
  }

  /** The steps that move the clock, a cooldown key or the settings. */
  predicate MovesClockOrKeys(step: Step) {
    step.ResendStep? || step.RemindStep? || step.TickStep? || step.EvictCooldownStep? || step.SettingsStep?
    || step.RemoveSettingsStep?
  }

  lemma OtherKeysStand(s: State, step: Step)
    requires !MovesClockOrKeys(step) && !IsSending(step)
    ensures var t := Apply(s, step);
      t.cooldowns == s.cooldowns && t.config == s.config && t.settings == s.settings && t.now == s.now
  {
    if step.DeletePlusOneStep? || step.DeleteAllStep? {
      hide Apply;
      RemovalsAreCalm(s, step);
    } else {
      hide Create;
      hide StageCommit;
      hide Cascade;
      match step {
        case CreateCall(event, rec) => CreateKeysStand(s, event, rec);
        case _ =>
      }
    }
  }

  lemma CreateKeysStand(s: State, event: Option<EventId>, rec: Record)
    ensures var t := Create(s, event, rec).state;
      t.cooldowns == s.cooldowns && t.config == s.config && t.settings == s.settings && t.now == s.now
  {
  }

  lemma OthersUntouched(s: State, step: Step)
    requires !MovesClockOrKeys(step) && !IsSending(step)
    ensures CooldownsUntouched(s, Apply(s, step))
  {
    OtherKeysStand(s, step);
    if step.LinkStep? && step.id in s.rows {
      assert Apply(s, step).log == s.log + [GuestLinked(step.id)];
    } else {
      hide Apply;
      if step.DeletePlusOneStep? || step.DeleteAllStep? {
        RemovalsAreCalm(s, step);
      } else {
        OtherStepsAreCalm(s, step);
      }
    }
  }

  lemma StepUntouched(s: State, step: Step)
    requires !MovesClockOrKeys(step)
    ensures CooldownsUntouched(s, Apply(s, step))
  {
    hide CooldownsUntouched;
    match step {
      case ReplyStep(call) => ReplyUntouched(s, call);
      case PublicStep(call) => PublicUntouched(s, call);
      case CreatePlusOneStep(call) => CreatePlusOneUntouched(s, call);
      case ApproveStep(a) => ApproveUntouched(s, a);
      case TicketStep(_) => MessagesUntouched(s, step);
      case ReservedStep(_, _) => MessagesUntouched(s, step);
      case _ => OthersUntouched(s, step);
    }
  }

  /** `Math.ceil` never shortens the cooldown. */
  lemma CeilNeverShortens(ms: int)
    ensures CeilSeconds(ms) * 1000 >= ms
    ensures CeilSeconds(ms) * 1000 < ms + 1000
  {
  }

  lemma ResendKeepsCooldown(s: State, id: Id, locale: Option<string>)
    requires CooldownInv(s)
    ensures CooldownInv(Resend(s, id, locale))
  {
    if ResendVerdict(s, id).Resent? {
      CeilNeverShortens(s.config.cooldownMs);
      var t := Resend(s, id, locale);
      ResendLog(s, id, locale);
      forall k | 0 <= k < |t.log| && t.log[k].ResendAccepted? ensures CooldownHeld(t, k) {
        if k < |s.log| {
          assert t.log[k] == s.log[k] && CooldownHeld(s, k);
          if EvictedSince(s.log, s.log[k].id, k) {
            EvictedGrows(s.log, t.log, s.log[k].id, k);
          }
        } else {
          assert t.log[k] == ResendAccepted(id, s.now);
        }
      }
    }
  }

  lemma ResendLog(s: State, id: Id, locale: Option<string>)
    requires ResendVerdict(s, id).Resent?
    ensures var t := Resend(s, id, locale);
      && t.cooldowns == s.cooldowns[id := s.now + CeilSeconds(s.config.cooldownMs) * 1000]
      && t.config == s.config && t.now == s.now
      && s.log <= t.log
      && (forall k | |s.log| <= k < |t.log| ::
            !t.log[k].CooldownEvicted? && (t.log[k].ResendAccepted? ==> t.log[k] == ResendAccepted(id, s.now)))
  {
  }

  lemma CooldownStep(s: State, step: Step)
    requires CooldownInv(s)
    ensures CooldownInv(Apply(s, step))
  {
    match step {
      case ResendStep(id, locale) => ResendKeepsCooldown(s, id, locale);
      case RemindStep(id, _) => ResendKeepsCooldown(s, id, None);
      case TickStep(_) => OutsideKeepsCooldown(s, step);
      case SettingsStep(_, _) => OutsideKeepsCooldown(s, step);
      case RemoveSettingsStep(_) => OutsideKeepsCooldown(s, step);
      case EvictCooldownStep(id) => EvictKeepsCooldown(s, id);
      case _ =>
        hide Apply;
        StepUntouched(s, step);
        UntouchedKeeps(s, Apply(s, step));
    }
  }

  lemma OutsideKeepsCooldown(s: State, step: Step)
    requires CooldownInv(s) && (step.TickStep? || step.SettingsStep? || step.RemoveSettingsStep?)
    ensures CooldownInv(Apply(s, step))
  {
  }

  lemma EvictKeepsCooldown(s: State, id: Id)
    requires CooldownInv(s)
    ensures CooldownInv(Emit(s.(cooldowns := s.cooldowns - {id}), CooldownEvicted(id)))
  {
    var t := Emit(s.(cooldowns := s.cooldowns - {id}), CooldownEvicted(id));
    forall k | 0 <= k < |t.log| && t.log[k].ResendAccepted? ensures CooldownHeld(t, k) {
      assert t.log[k] == s.log[k] && CooldownHeld(s, k);
      assert t.log[|s.log|] == CooldownEvicted(id);
      if EvictedSince(s.log, s.log[k].id, k) {
        EvictedGrows(s.log, t.log, s.log[k].id, k);
      }
    }
  }

  /** Two accepted resends of one invitation, and either the cooldown lies between them or its key was evicted there. */
  ghost predicate Spaced(log: seq<Fact>, cooldownMs: int) {
    forall j, k | 0 <= j < k < |log| && log[j].ResendAccepted? && log[k].ResendAccepted? && log[j].id == log[k].id ::
      log[k].at - log[j].at >= cooldownMs || EvictedSince(log[..k], log[j].id, j)
  }

  /** The step that accepts a resend finds no live key, so every earlier one is a cooldown away or evicted. */
  lemma SpacedStep(s: State, step: Step)
    requires CooldownInv(s) && Spaced(s.log, s.config.cooldownMs)
    ensures Spaced(Apply(s, step).log, s.config.cooldownMs)
    ensures Apply(s, step).config == s.config
  {
    var t := Apply(s, step);
    if step.ResendStep? {
      SpacedResend(s, step.id, step.locale);
    } else if step.RemindStep? {
      SpacedResend(s, step.id, None);
    } else {
      assert s.log <= t.log && t.config == s.config && forall k | |s.log| <= k < |t.log| :: !t.log[k].ResendAccepted?
      by {
        if !MovesClockOrKeys(step) {
          hide Apply;
          StepUntouched(s, step);
        }
      }
      hide Apply;
      SpacedGrows(s.log, t.log, s.config.cooldownMs);
    }
  }

  lemma SpacedGrows(log: seq<Fact>, more: seq<Fact>, cooldownMs: int)
    requires Spaced(log, cooldownMs) && log <= more
    requires forall k | |log| <= k < |more| :: !more[k].ResendAccepted?
    ensures Spaced(more, cooldownMs)
  {
  }

  lemma SpacedResend(s: State, id: Id, locale: Option<string>)
    requires CooldownInv(s) && Spaced(s.log, s.config.cooldownMs)
    ensures Spaced(Resend(s, id, locale).log, s.config.cooldownMs)
    ensures Resend(s, id, locale).config == s.config
  {
    if ResendVerdict(s, id).Resent? {
      var c := s.config.cooldownMs;
      var t := Resend(s, id, locale);
      ResendLog(s, id, locale);
      ResendEndsTheLog(s, id, locale);
      var before := t.log[..|t.log| - 1];
      SpacedGrows(s.log, before, c);
      forall j, k | 0 <= j < k < |t.log| && t.log[j].ResendAccepted? && t.log[k].ResendAccepted?
                    && t.log[j].id == t.log[k].id
        ensures t.log[k].at - t.log[j].at >= c || EvictedSince(t.log[..k], t.log[j].id, j)
      {
        if k < |before| {
          assert before[j] == t.log[j] && before[k] == t.log[k] && before[..k] == t.log[..k];
        } else {
          assert t.log[j] == s.log[j] && CooldownHeld(s, j);
          if EvictedSince(s.log, s.log[j].id, j) {
            EvictedGrows(s.log, t.log[..k], s.log[j].id, j);
          }
        }
      }
    }
  }

  lemma ResendEndsTheLog(s: State, id: Id, locale: Option<string>)
    requires ResendVerdict(s, id).Resent?
    ensures var log := Resend(s, id, locale).log;
      && |log| == |s.log| + 2
      && log[|s.log| + 1] == ResendAccepted(id, s.now)
      && !log[|s.log|].ResendAccepted?
  {
  }

  lemma {:induction false} SpacedRun(s: State, steps: seq<Step>)
    requires CooldownInv(s) && Spaced(s.log, s.config.cooldownMs)
    ensures Spaced(Run(s, steps).log, s.config.cooldownMs)
    decreases |steps|
  {
    if steps != [] {
      CooldownStep(s, steps[0]);
      SpacedStep(s, steps[0]);
      SpacedRun(Apply(s, steps[0]), steps[1..]);
    }
  }

  /**
   Every run: two accepted resends of one invitation, whoever asked for them, are at least the configured
   cooldown apart, unless the cache dropped the invitation's cooldown key in between.
   */
  lemma ResendsKeepTheCooldown(now: int, config: Config, steps: seq<Step>, j: nat, k: nat)
    requires var log := Run(Initial(now, config), steps).log;
      && j < k < |log| && log[j].ResendAccepted? && log[k].ResendAccepted? && log[j].id == log[k].id
      && forall i | j < i < k :: log[i] != CooldownEvicted(log[j].id)
    ensures var log := Run(Initial(now, config), steps).log;
      log[k].at - log[j].at >= config.cooldownMs
  {
    var s := Initial(now, config);
    var log := Run(s, steps).log;
    SpacedRun(s, steps);
    EvictedInTheWhole(log, log[j].id, j, k);
  }

  lemma EvictedInTheWhole(log: seq<Fact>, id: Id, j: nat, k: nat)
    requires k <= |log|
    ensures EvictedSince(log[..k], id, j) ==> exists i :: j < i < k && log[i] == CooldownEvicted(id)
  {
  }
}
