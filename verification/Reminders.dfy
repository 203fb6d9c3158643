/**
 The cap on reminders: what it guarantees for the stored counter, and why the
 counter does not bound the number of links.
 */
module Reminders {
  import opened Prelude
  import opened Store
  import opened Confirmation
  import opened Operations
  import opened System
  import opened Invariants
  import opened Evolution
  import opened SeatFirst
  import opened Resends

  /** A reminder, in any state: it counts at most one resend, of its own invitation, and only below the cap. */
  lemma ReminderRespectsTheCap(s: State, id: Id, preset: Option<Preset>)
    ensures var t := Remind(s, id, preset);
      && t.rows.Keys == s.rows.Keys && t.settings == s.settings && t.config == s.config && t.nextId == s.nextId
      && (forall i | i in s.rows && i != id :: t.rows[i] == s.rows[i])
      && (id in s.rows ==>
            && t.rows[id].event == s.rows[id].event
            && (t.rows[id].resends == s.rows[id].resends
                || (t.rows[id].resends == s.rows[id].resends + 1 && s.rows[id].resends < ReminderCap(s, id))))
  {
  }

  function RemindersOf(steps: seq<Step>, id: Id): nat
    decreases |steps|
  {
    if steps == [] then 0
    else RemindersOf(steps[1..], id) + if steps[0].RemindStep? && steps[0].id == id then 1 else 0
  }

  /** No resend is asked for directly, and the cap is not changed. */
  predicate OnlyReminds(steps: seq<Step>) {
    forall k | 0 <= k < |steps| ::
      !steps[k].ResendStep? && !steps[k].SettingsStep? && !steps[k].RemoveSettingsStep?
  }

  lemma CountStep(s: State, step: Step, id: Id)
    requires id < s.nextId && !step.ResendStep? && !step.SettingsStep? && !step.RemoveSettingsStep?
    ensures var t := Apply(s, step);
      && id < t.nextId
      && (id in t.rows ==>
            && id in s.rows && ReminderCap(t, id) == ReminderCap(s, id)
            && (t.rows[id].resends == s.rows[id].resends
                || (step.RemindStep? && step.id == id
                    && t.rows[id].resends == s.rows[id].resends + 1 && s.rows[id].resends < ReminderCap(s, id))))
  {
    if step.RemindStep? {
      ReminderRespectsTheCap(s, step.id, step.preset);
    } else {
      EvolvesStep(s, step);
      SettingsStand(s, step);
      hide Apply;
    }
  }

  lemma SettingsStand(s: State, step: Step)
    requires !step.ResendStep? && !step.RemindStep? && !step.SettingsStep? && !step.RemoveSettingsStep?
    ensures Apply(s, step).settings == s.settings && Apply(s, step).config == s.config
  {
    if !MovesClockOrKeys(step) {
      hide Apply;
      StepUntouched(s, step);
    }
  }

  /**
   From any state, over any run whose only resends are reminders under a fixed cap: the counter never
   falls, rises by at most one per reminder, and never passes a cap that is at or above where it started.
   */
  lemma {:induction false} RemindersStayBelowTheCap(s: State, steps: seq<Step>, id: Id)
    requires id < s.nextId && OnlyReminds(steps)
    ensures var t := Run(s, steps);
      id in t.rows ==>
        && id in s.rows
        && s.rows[id].resends <= t.rows[id].resends <= s.rows[id].resends + RemindersOf(steps, id)
        && (s.rows[id].resends <= ReminderCap(s, id) ==> t.rows[id].resends <= ReminderCap(s, id))
    decreases |steps|
  {
    hide Apply;
    hide ReminderCap;
    if steps != [] {
      CountStep(s, steps[0], id);
      RemindersStayBelowTheCap(Apply(s, steps[0]), steps[1..], id);
    }
  }

  // --------------------------------------------- the counter never moves

  datatype Tally = Links | Accepted

  predicate Counts(f: Fact, tally: Tally, id: Id) {
    match tally
    case Links => f.ConfirmationSent? && f.id == id
    case Accepted => f.ResendAccepted? && f.id == id
  }

  /** How many links, or accepted resends, of `id` the log holds. */
  function CountIn(log: seq<Fact>, tally: Tally, id: Id): nat
    decreases |log|
  {
    if log == [] then 0
    else CountIn(log[..|log| - 1], tally, id) + if Counts(log[|log| - 1], tally, id) then 1 else 0
  }

  lemma CountSnoc(log: seq<Fact>, f: Fact, tally: Tally, id: Id)
    ensures CountIn(log + [f], tally, id) == CountIn(log, tally, id) + if Counts(f, tally, id) then 1 else 0
  {
    assert (log + [f])[..|log|] == log;
  }

  lemma {:induction false} UncountedGrowth(log: seq<Fact>, more: seq<Fact>, tally: Tally, id: Id)
    requires log <= more && forall k | |log| <= k < |more| :: !Counts(more[k], tally, id)
    ensures CountIn(more, tally, id) == CountIn(log, tally, id)
    decreases |more|
  {
    if more != log {
      UncountedGrowth(log, more[..|more| - 1], tally, id);
    }
  }

  /** A reachable store never counts a resend, so the cap lets a reminder pass exactly when it is positive. */
  lemma CapPassesExactlyWhenPositive(s: State, id: Id)
    requires StoreInv(s) && id in s.rows
    ensures s.rows[id].resends < ReminderCap(s, id) <==> ReminderCap(s, id) > 0
  {
    RowIsOk(s, id);
  }

  /** From any state a resend sends a link itself if and only if it is accepted and the stored payload names a seat. */
  lemma ResendLinksExactlyWithSeat(s: State, id: Id, locale: Option<string>)
    ensures NoNewLinks(s, Resend(s, id, locale)) <==> !(ResendVerdict(s, id).Resent? && StoresSeat(s, id))
  {
    if ResendVerdict(s, id).Resent? && StoresSeat(s, id) {
      assert Resend(s, id, locale).log[|s.log|].ConfirmationSent?;
    }
  }

  /** In a reachable store none does. */
  lemma ResendSendsNoLink(s: State, id: Id, locale: Option<string>)
    requires StoreInv(s)
    ensures NoNewLinks(s, Resend(s, id, locale))
  {
    NothingStored(s, id);
    ResendLinksExactlyWithSeat(s, id, locale);
  }

  lemma NothingStored(s: State, id: Id)
    requires StoreInv(s)
    ensures !StoresSeat(s, id)
  {
  }

  /** An invitation that only the cap could keep from being reminded now. */
  ghost predicate Waiting(s: State, id: Id) {
    && StoreInv(s) && id in s.rows
    && (s.rows[id].event in s.settings ==> s.settings[s.rows[id].event].remindersEnabled)
    && s.rows[id].endsAt.None?
    && ResendVerdict(s, id).Resent?
  }

  /** An invitation whose reminder goes out now. */
  ghost predicate Remindable(s: State, id: Id) {
    Waiting(s, id) && ReminderFires(s, id, None)
  }

  /** The reminder then fires exactly when the cap is positive. */
  lemma WaitingIsRemindable(s: State, id: Id)
    requires Waiting(s, id)
    ensures Remindable(s, id) <==> ReminderCap(s, id) > 0
  {
    CapPassesExactlyWhenPositive(s, id);
  }

  function Pause(config: Config): nat {
    if CeilSeconds(config.cooldownMs) > 0 then CeilSeconds(config.cooldownMs) * 1000 else 0
  }

  /** Reminder, the seat it asks for, and the cooldown, `n` times over. */
  function Rounds(config: Config, id: Id, seat: Seat, n: nat): seq<Step> {
    if n == 0 then []
    else [RemindStep(id, None), ReservedStep(id, seat), TickStep(Pause(config))] + Rounds(config, id, seat, n - 1)
  }

  lemma RemindRound(s: State, id: Id)
    requires Remindable(s, id)
    ensures var t := Remind(s, id, None);
      && t == s.(cooldowns := s.cooldowns[id := s.now + CeilSeconds(s.config.cooldownMs) * 1000],
                 log := s.log + [SeatRequested(id)] + [ResendAccepted(id, s.now)])
      && CountIn(t.log, Links, id) == CountIn(s.log, Links, id)
      && CountIn(t.log, Accepted, id) == CountIn(s.log, Accepted, id) + 1
  {
    hide Sound;
    hide CountIn;
    NothingStored(s, id);
    ResendAsksForASeat(s, id);
    var asked, f := s.log + [SeatRequested(id)], ResendAccepted(id, s.now);
    CountSnoc(s.log, SeatRequested(id), Links, id);
    CountSnoc(asked, f, Links, id);
    CountSnoc(s.log, SeatRequested(id), Accepted, id);
    CountSnoc(asked, f, Accepted, id);
  }

  lemma ResendAsksForASeat(s: State, id: Id)
    requires ResendVerdict(s, id).Resent? && !StoresSeat(s, id)
    ensures Resend(s, id, None)
         == s.(cooldowns := s.cooldowns[id := s.now + CeilSeconds(s.config.cooldownMs) * 1000],
               log := s.log + [SeatRequested(id)] + [ResendAccepted(id, s.now)])
  {
  }

  lemma ReservedRound(s: State, id: Id, seat: Seat)
    requires StoreInv(s) && id in s.rows && MaySendFirst(s, id)
    ensures var t := HandleReserved(s, id, seat);
      && StoreInv(t) && id in t.rows
      && t.rows[id].(pendingId := None, payload := None, sentAt := None)
         == s.rows[id].(pendingId := None, payload := None, sentAt := None)
      && t.rows[id].payload.Some?
      && t.settings == s.settings && t.config == s.config && t.cooldowns == s.cooldowns && t.now == s.now
      && CountIn(t.log, Links, id) == CountIn(s.log, Links, id) + 1
      && CountIn(t.log, Accepted, id) == CountIn(s.log, Accepted, id)
  {
    var noted := Emit(s, SeatReserved(id, seat));
    Invariants.SendFirstKeeps(noted, id, Some(seat), None);
    SendFirstEffect(noted, id, Some(seat), None);
    var t, link := SendFirst(noted, id, Some(seat), None), ConfirmationSent(id, s.nextToken, Some(seat));
    ReservedCounts(s.log, t.log, id, seat, link, Links);
    ReservedCounts(s.log, t.log, id, seat, link, Accepted);
  }

  lemma ReservedCounts(before: seq<Fact>, after: seq<Fact>, id: Id, seat: Seat, link: Fact, tally: Tally)
    requires link.ConfirmationSent? && link.id == id
    requires GrewQuietly(before + [SeatReserved(id, seat)] + [link], after)
    ensures CountIn(after, tally, id) == CountIn(before, tally, id) + if tally.Links? then 1 else 0
  {
    var noted := before + [SeatReserved(id, seat)];
    CountSnoc(before, SeatReserved(id, seat), tally, id);
    CountSnoc(noted, link, tally, id);
    UncountedGrowth(noted + [link], after, tally, id);
  }

  lemma AfterRemind(s: State, id: Id)
    requires Remindable(s, id)
    ensures var a := Remind(s, id, None);
      StoreInv(a) && id in a.rows && MaySendFirst(a, id)
  {
  }

  /** After the pause the row is as good for another reminder as before: only its token, payload and stamp differ. */
  lemma AfterPause(s: State, id: Id, b: State)
    requires Remindable(s, id) && StoreInv(b) && id in b.rows && b.rows[id].payload.Some?
    requires b.rows[id].(pendingId := None, payload := None, sentAt := None)
          == s.rows[id].(pendingId := None, payload := None, sentAt := None)
    requires b.settings == s.settings && b.config == s.config && b.now == s.now
    requires b.cooldowns == s.cooldowns[id := s.now + CeilSeconds(s.config.cooldownMs) * 1000]
    ensures Remindable(b.(now := b.now + Pause(s.config)), id)
  {
  }

  lemma OneRound(s: State, id: Id, seat: Seat)
    requires Remindable(s, id)
    ensures var t := Run(s, Rounds(s.config, id, seat, 1));
      && Remindable(t, id) && t.config == s.config
      && CountIn(t.log, Links, id) == CountIn(s.log, Links, id) + 1
      && CountIn(t.log, Accepted, id) == CountIn(s.log, Accepted, id) + 1
  {
    hide Sound;
    hide HandleReserved;
    hide MaySendFirst;
    hide Remind;
    hide Rounds;
    hide Run;
    hide Remindable;
    RemindRound(s, id);
    AfterRemind(s, id);
    var a := Remind(s, id, None);
    ReservedRound(a, id, seat);
    var b := HandleReserved(a, id, seat);
    AfterPause(s, id, b);
    RoundRuns(s, id, seat);
  }

  lemma RoundRuns(s: State, id: Id, seat: Seat)
    ensures var b := HandleReserved(Remind(s, id, None), id, seat);
      Run(s, Rounds(s.config, id, seat, 1)) == b.(now := b.now + Pause(s.config))
  {
    hide HandleReserved;
    hide Remind;
    RunThree(s, RemindStep(id, None), ReservedStep(id, seat), TickStep(Pause(s.config)));
    assert Rounds(s.config, id, seat, 0) == [];
    assert Rounds(s.config, id, seat, 1)
        == [RemindStep(id, None), ReservedStep(id, seat), TickStep(Pause(s.config))];
  }

  lemma RunThree(s: State, a: Step, b: Step, c: Step)
    ensures Run(s, [a, b, c]) == Apply(Apply(Apply(s, a), b), c)
  {
    hide Apply;
    assert [a, b, c][1..] == [b, c] && [b, c][1..] == [c] && [c][1..] == [];
    var t := Apply(s, a);
    var u := Apply(t, b);
    assert Run(u, [c]) == Run(Apply(u, c), []);
    assert Run(t, [b, c]) == Run(u, [c]);
  }

  /**
   In a reachable store the counter stays at zero, so a positive cap never stops a reminder:
   for every `n` there is a run in which `n` reminders are accepted and `n` further links go out.
   */
  lemma {:induction false} TheCapDoesNotBoundLinks(s: State, id: Id, seat: Seat, n: nat)
    requires Remindable(s, id)
    ensures var t := Run(s, Rounds(s.config, id, seat, n));
      && CountIn(t.log, Links, id) == CountIn(s.log, Links, id) + n
      && CountIn(t.log, Accepted, id) == CountIn(s.log, Accepted, id) + n
      && id in t.rows && t.rows[id].resends == 0
    decreases n
  {
    hide Apply;
    hide Remindable;
    if n == 0 {
      CountIsZero(s, id);
    } else {
      var t := Run(s, Rounds(s.config, id, seat, 1));
      OneRound(s, id, seat);
      RoundsAdd(s.config, id, seat, n);
      RunConcat(s, Rounds(s.config, id, seat, 1), Rounds(s.config, id, seat, n - 1));
      TheCapDoesNotBoundLinks(t, id, seat, n - 1);
    }
  }

  lemma RoundsAdd(config: Config, id: Id, seat: Seat, n: nat)
    requires n > 0
    ensures Rounds(config, id, seat, n) == Rounds(config, id, seat, 1) + Rounds(config, id, seat, n - 1)
  {
  }

  lemma CountIsZero(s: State, id: Id)
    requires Remindable(s, id)
    ensures id in s.rows && s.rows[id].resends == 0
  {
  }

  lemma {:induction false} RoundsOnlyRemind(config: Config, id: Id, seat: Seat, n: nat)
    ensures OnlyReminds(Rounds(config, id, seat, n))
    decreases n
  {
    if n > 0 {
      RoundsOnlyRemind(config, id, seat, n - 1);
    }
  }

  // -------------------------------------------------- when the cap is a cap

  /** The cap does its job: over every run under it, no more resends of `id` are accepted than it says. */
  ghost predicate CapBounds(s: State, id: Id)
    requires id in s.rows
  {
    forall steps | OnlyReminds(steps) ::
      CountIn(Run(s, steps).log, Accepted, id) <= CountIn(s.log, Accepted, id) + Positive(ReminderCap(s, id))
  }

  function Positive(n: int): nat {
    if n > 0 then n else 0
  }

  lemma NoneAcceptedStep(s: State, step: Step, id: Id)
    requires StoreInv(s) && OnlyReminds([step]) && (id in s.rows ==> ReminderCap(s, id) <= 0)
    ensures CountIn(Apply(s, step).log, Accepted, id) == CountIn(s.log, Accepted, id)
  {
    assert [step][0] == step;
    if step.RemindStep? {
      if step.id in s.rows {
        CapPassesExactlyWhenPositive(s, step.id);
      }
      RemindLog(s, step.id, step.preset, id);
      UncountedGrowth(s.log, Apply(s, step).log, Accepted, id);
    } else {
      OtherStepsAcceptNothing(s, step, id);
      UncountedGrowth(s.log, Apply(s, step).log, Accepted, id);
    }
  }

  lemma RemindLog(s: State, other: Id, preset: Option<Preset>, id: Id)
    requires other == id ==> !ReminderFires(s, other, preset)
    ensures var log := Remind(s, other, preset).log;
      s.log <= log && forall k | |s.log| <= k < |log| :: !Counts(log[k], Accepted, id)
  {
  }

  lemma OtherStepsAcceptNothing(s: State, step: Step, id: Id)
    requires !step.ResendStep? && !step.RemindStep?
    ensures var log := Apply(s, step).log;
      s.log <= log && forall k | |s.log| <= k < |log| :: !Counts(log[k], Accepted, id)
  {
    if !MovesClockOrKeys(step) {
      hide Apply;
      StepUntouched(s, step);
    }
  }

  lemma {:induction false} NoneAcceptedRun(s: State, steps: seq<Step>, id: Id)
    requires StoreInv(s) && id < s.nextId && OnlyReminds(steps) && (id in s.rows ==> ReminderCap(s, id) <= 0)
    ensures CountIn(Run(s, steps).log, Accepted, id) == CountIn(s.log, Accepted, id)
    decreases |steps|
  {
    hide Apply;
    hide Sound;
    hide CountIn;
    if steps != [] {
      StoreStep(s, steps[0]);
      CountStep(s, steps[0], id);
      NoneAcceptedStep(s, steps[0], id);
      NoneAcceptedRun(Apply(s, steps[0]), steps[1..], id);
    }
  }

  /**
   In a reachable store the cap bounds the resends of an invitation that is waiting for its reminder
   if and only if it is not positive, that is if it lets no reminder pass at all.
   */
  lemma CapBoundsExactlyWhenNotPositive(s: State, id: Id)
    requires Waiting(s, id)
    ensures CapBounds(s, id) <==> ReminderCap(s, id) <= 0
  {
    var cap := ReminderCap(s, id);
    if cap > 0 {
      WaitingIsRemindable(s, id);
      TheCapDoesNotBoundLinks(s, id, 0, cap + 1);
      RoundsOnlyRemind(s.config, id, 0, cap + 1);
    } else {
      IdIsOld(s, id);
      forall steps | OnlyReminds(steps)
        ensures CountIn(Run(s, steps).log, Accepted, id) <= CountIn(s.log, Accepted, id) + Positive(cap)
      {
        NoneAcceptedRun(s, steps, id);
      }
    }
  }

  // ------------------------------------------------------- it does happen

  /** Somebody's RSVP. */
  function SomeGuest(event: EventId): PublicCall {
    PublicCall(event, "Ada", "Lovelace", [Phone("12", true)], [], "en-US")
  }

  /** One public RSVP to the empty store, where no event has settings, is waiting for its reminder. */
  lemma AnyPublicGuestIsWaiting(now: int, config: Config, call: PublicCall)
    requires PublicRefusal(call).None?
    ensures Waiting(Run(Initial(now, config), [PublicStep(call)]), 0)
    ensures ReminderCap(Run(Initial(now, config), [PublicStep(call)]), 0) == config.maxResends
  {
    var s := Initial(now, config);
    InitialIsSound(now, config);
    StoreStep(s, PublicStep(call));
    assert [PublicStep(call)][1..] == [];
    assert Run(Apply(s, PublicStep(call)), []) == Apply(s, PublicStep(call));
    hide Run;
    var t := PublicCommit(s, call);
    assert 0 !in NewIds(1, |call.plusOnes|);
    assert t.rows[0].guest.None? && t.rows[0].status.ACCEPTED? && t.rows[0].payload.Some? && t.rows[0].endsAt.None?;
  }

  /** So from the empty store, under any positive cap, there are runs with any number of reminders and links. */
  lemma RemindersWithoutBound(now: int, config: Config, event: EventId, seat: Seat, n: nat)
    requires config.maxResends > 0
    ensures var first := Run(Initial(now, config), [PublicStep(SomeGuest(event))]);
      var t := Run(first, Rounds(config, 0, seat, n));
      && CountIn(t.log, Accepted, 0) == CountIn(first.log, Accepted, 0) + n
      && CountIn(t.log, Links, 0) == CountIn(first.log, Links, 0) + n
  {
    var call := SomeGuest(event);
    assert HasText("12") by {
      assert !IsSpace("12"[0]);
    }
    assert HasValidPhone(call.phones) by {
      assert HasText(call.phones[0].number);
    }
    AnyPublicGuestIsWaiting(now, config, call);
    var s := Run(Initial(now, config), [PublicStep(call)]);
    hide Run;
    WaitingIsRemindable(s, 0);
    ConfigStands(now, config, call);
    TheCapDoesNotBoundLinks(s, 0, seat, n);
  }

  lemma ConfigStands(now: int, config: Config, call: PublicCall)
    ensures Run(Initial(now, config), [PublicStep(call)]).config == config
  {
    var s := Initial(now, config);
    SettingsStand(s, PublicStep(call));
    hide Apply;
    assert [PublicStep(call)][1..] == [];
    assert Run(Apply(s, PublicStep(call)), []) == Apply(s, PublicStep(call));
  }
}
