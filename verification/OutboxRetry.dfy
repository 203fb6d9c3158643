/**
 When a failed record is tried again: the stored time, read off the history of
 recorded failures, and how long ten attempts of a lone instance take.
 */
module OutboxRetry {
  import opened Prelude
  import opened OutboxRow
  import opened OutboxProtocol
  import opened OutboxBackoff

  /** The wait after the k-th failure, k = 1..9, in milliseconds. */
  const WAITS: seq<int> := [2_000, 4_000, 8_000, 16_000, 32_000, 64_000, 128_000, 256_000, 300_000]

  /** The times at which failures of a record were recorded, in order. */
  function FailureTimes(h: seq<Fact>, id: Id): (times: seq<int>)
    ensures |times| == Failures(h, id)
    decreases |h|
  {
    if h == [] then []
    else
      var last := h[|h| - 1];
      FailureTimes(h[..|h| - 1], id) + if last.FailureRecorded? && last.id == id then [last.at] else []
  }

  lemma TimesSnoc(h: seq<Fact>, f: Fact, id: Id)
    ensures FailureTimes(h + [f], id)
         == FailureTimes(h, id) + if f.FailureRecorded? && f.id == id then [f.at] else []
  {
    assert (h + [f])[..|h|] == h;
  }

  /** Before the tenth failure the row waits out the last one; at the tenth it is dead-lettered on the spot. */
  ghost predicate Waits(h: seq<Fact>, id: Id, r: Row) {
    var times := FailureTimes(h, id);
    && (1 <= |times| <= 9 ==> r.nextAttemptAt == times[|times| - 1] + WAITS[|times| - 1] && r.deadLetteredAt.None?)
    && (|times| == 10 ==> r.deadLetteredAt == Some(times[9]))
    && (|times| == 0 ==> r.deadLetteredAt.None?)
  }

  ghost predicate RetryInv(s: State) {
    forall id | id in s.rows :: Waits(s.history, id, s.rows[id])
  }

  lemma BackoffTable(k: nat)
    requires 1 <= k <= 9
    ensures Backoff(k) == WAITS[k - 1]
  {
    assert Pow2(1) == 2 && Pow2(2) == 4 && Pow2(3) == 8;
    assert Pow2(4) == 16 && Pow2(5) == 32 && Pow2(6) == 64;
    assert Pow2(7) == 128 && Pow2(8) == 256 && Pow2(9) == 512;
  }

  lemma TimesOf(s: State, a: Action, id: Id)
    ensures FailureTimes(Apply(s, a).history, id)
         == FailureTimes(s.history, id)
            + if a.RecordFailure? && Enabled(s, a) && PhaseOf(s, a.me).id == id then [s.now] else []
  {
    if Enabled(s, a) && a.RecordFailure? {
      TimesSnoc(s.history, FailureRecorded(PhaseOf(s, a.me).id, a.me, s.now), id);
    } else if Enabled(s, a) && a.Deliver? {
      TimesSnoc(s.history, Delivered(PhaseOf(s, a.me).id, a.me, s.now), id);
    }
  }

  /** The row that failed waits as the table says, or is dead-lettered. */
  lemma FailedWaits(s: State, a: Action)
    requires LeaseInv(s) && RetryInv(s) && a.RecordFailure? && Enabled(s, a)
    ensures var t, id := Apply(s, a), PhaseOf(s, a.me).id;
      id in t.rows && Waits(t.history, id, t.rows[id])
  {
    var p := PhaseOf(s, a.me);
    TimesOf(s, a, p.id);
    assert Waits(s.history, p.id, s.rows[p.id]);
    if p.read + 1 <= 9 {
      BackoffTable(p.read + 1);
    }
  }

  lemma OthersWait(s: State, a: Action, id: Id)
    requires RetryInv(s) && a.RecordFailure? && Enabled(s, a) && id in Apply(s, a).rows && id != PhaseOf(s, a.me).id
    ensures Waits(Apply(s, a).history, id, Apply(s, a).rows[id])
  {
    TimesOf(s, a, id);
    assert id in s.rows && Apply(s, a).rows[id] == s.rows[id];
    hide FailureTimes;
    hide Apply;
  }

  lemma RetryFailure(s: State, a: Action)
    requires LeaseInv(s) && RetryInv(s) && a.RecordFailure? && Enabled(s, a)
    ensures RetryInv(Apply(s, a))
  {
    FailedWaits(s, a);
    forall id | id in Apply(s, a).rows ensures Waits(Apply(s, a).history, id, Apply(s, a).rows[id]) {
      if id != PhaseOf(s, a.me).id {
        OthersWait(s, a, id);
      }
    }
    hide Apply;
    hide Waits;
    hide LeaseInv;
  }

  lemma RetryStep(s: State, a: Action)
    requires LeaseInv(s) && RetryInv(s)
    ensures RetryInv(Apply(s, a))
  {
    if a.RecordFailure? && Enabled(s, a) {
      RetryFailure(s, a);
    } else {
      OtherStepsWait(s, a);
    }
  }

  lemma OtherStepsKeep(s: State, a: Action, id: Id)
    requires !(a.RecordFailure? && Enabled(s, a)) && id in s.rows && id in Apply(s, a).rows
    ensures var u := Apply(s, a).rows[id];
      u.nextAttemptAt == s.rows[id].nextAttemptAt && u.deadLetteredAt == s.rows[id].deadLetteredAt
  {
  }

  lemma OldRowWaits(s: State, a: Action, id: Id)
    requires RetryInv(s) && !(a.RecordFailure? && Enabled(s, a)) && id in s.rows && id in Apply(s, a).rows
    ensures Waits(Apply(s, a).history, id, Apply(s, a).rows[id])
  {
    TimesOf(s, a, id);
    OtherStepsKeep(s, a, id);
    assert Waits(s.history, id, s.rows[id]);
    hide Apply;
    hide FailureTimes;
    hide RetryInv;
  }

  lemma NewRowWaits(s: State, a: Action, id: Id)
    requires LeaseInv(s) && !(a.RecordFailure? && Enabled(s, a)) && id !in s.rows && id in Apply(s, a).rows
    ensures Waits(Apply(s, a).history, id, Apply(s, a).rows[id])
  {
    TimesOf(s, a, id);
    NoFailuresYet(s.history, id);
  }

  lemma OtherStepsWait(s: State, a: Action)
    requires LeaseInv(s) && RetryInv(s) && !(a.RecordFailure? && Enabled(s, a))
    ensures RetryInv(Apply(s, a))
  {
    hide Apply;
    hide Waits;
    hide LeaseInv;
    forall id | id in Apply(s, a).rows ensures Waits(Apply(s, a).history, id, Apply(s, a).rows[id]) {
      if id in s.rows {
        OldRowWaits(s, a, id);
      } else {
        NewRowWaits(s, a, id);
      }
    }
  }

  lemma {:induction false} RetryRun(s: State, actions: seq<Action>)
    requires LeaseInv(s) && RetryInv(s) && TimelyRun(s, actions)
    ensures RetryInv(Run(s, actions))
    decreases |actions|
  {
    if actions != [] {
      LeaseStep(s, actions[0]);
      RetryStep(s, actions[0]);
      RetryRun(Apply(s, actions[0]), actions[1..]);
    }
  }

  /**
   Over every run in time: a record with k recorded failures, k = 1..9, is due again 2, 4, 8, ..., 256, 300 seconds
   after the last of them and is not dead-lettered; at the tenth it is dead-lettered with that failure's time.
   */
  lemma RetriesFollowTheTable(now: int, actions: seq<Action>, id: Id)
    requires TimelyRun(Initial(now), actions) && id in Run(Initial(now), actions).rows
    ensures var s := Run(Initial(now), actions);
      |FailureTimes(s.history, id)| <= 10 && Waits(s.history, id, s.rows[id])
  {
    LeaseSafety(Initial(now), actions);
    RetryRun(Initial(now), actions);
  }

  // ------------------------------------------------------------ one instance

  /** A lone instance never claims what it still holds, so it needs no timing assumption. */
  lemma SoloLease(s: State, a: Action, me: Instance)
    requires LeaseInv(s) && SoloInv(s, me) && SoloAction(a, me)
    ensures LeaseInv(Apply(s, a))
  {
    if Enabled(s, a) {
      if IsSilent(a) {
        LeaseSilent(s, a);
      } else if a.Claim? {
        SoloClaim(s, a, me);
      } else if a.Deliver? || a.RecordFailure? {
        LeaseHistory(s, a);
      } else {
        LeaseWrite(s, a);
      }
    }
  }

  lemma SoloClaim(s: State, a: Action, me: Instance)
    requires LeaseInv(s) && s.phases.Keys <= {me} && a.Claim? && a.me == me && Enabled(s, a)
    ensures LeaseInv(Effect(s, a))
  {
    forall i | i in s.phases ensures !s.phases[i].Holds() {
      assert i == me;
    }
  }

  /** Between two failures of a record lies at least the wait after the first of them. */
  ghost predicate Spread(times: seq<int>) {
    forall k | 0 <= k < |times| - 1 && k < 9 :: times[k + 1] - times[k] >= WAITS[k]
  }

  ghost predicate AllSpread(s: State) {
    forall id :: Spread(FailureTimes(s.history, id))
  }

  /** A failure is recorded only after the wait since the one before. */
  lemma NextFailure(s: State, a: Action, me: Instance)
    requires LeaseInv(s) && RetryInv(s) && SoloInv(s, me) && a.RecordFailure? && Enabled(s, a) && a.me == me
    ensures var times := FailureTimes(s.history, PhaseOf(s, me).id);
      |times| <= 9 && (times != [] ==> s.now >= times[|times| - 1] + WAITS[|times| - 1])
  {
    var id := PhaseOf(s, me).id;
    assert me in s.phases && id in s.rows;
    assert Waits(s.history, id, s.rows[id]);
  }

  lemma SpreadStep(s: State, a: Action, me: Instance)
    requires LeaseInv(s) && RetryInv(s) && SoloInv(s, me) && SoloAction(a, me) && AllSpread(s)
    ensures AllSpread(Apply(s, a))
  {
    hide Apply;
    hide LeaseInv;
    hide RetryInv;
    hide SoloInv;
    hide Spread;
    hide FailureTimes;
    forall id ensures Spread(FailureTimes(Apply(s, a).history, id)) {
      TimesOf(s, a, id);
      assert Spread(FailureTimes(s.history, id));
      if a.RecordFailure? && Enabled(s, a) && PhaseOf(s, a.me).id == id {
        NextFailure(s, a, me);
        SpreadSnoc(FailureTimes(s.history, id), s.now);
      } else {
        assert FailureTimes(s.history, id) + [] == FailureTimes(s.history, id);
      }
    }
  }

  lemma SpreadSnoc(times: seq<int>, at: int)
    requires Spread(times) && |times| <= 9
    requires times != [] ==> at >= times[|times| - 1] + WAITS[|times| - 1]
    ensures Spread(times + [at])
  {
  }

  lemma {:induction false} SpreadRun(s: State, actions: seq<Action>, me: Instance)
    requires LeaseInv(s) && RetryInv(s) && SoloInv(s, me) && AllSpread(s)
    requires forall k | 0 <= k < |actions| :: SoloAction(actions[k], me)
    ensures AllSpread(Run(s, actions)) && LeaseInv(Run(s, actions))
    decreases |actions|
  {
    if actions != [] {
      SoloStep(s, actions[0], me);
      SoloLease(s, actions[0], me);
      RetryStep(s, actions[0]);
      SpreadStep(s, actions[0], me);
      SpreadRun(Apply(s, actions[0]), actions[1..], me);
    }
  }

  /** In every run of a lone instance, crashes included: a record's first and tenth failure are at least 810 s apart. */
  lemma TenAttemptsTakeAWhile(now: int, actions: seq<Action>, me: Instance, id: Id)
    requires forall k | 0 <= k < |actions| :: SoloAction(actions[k], me)
    requires |FailureTimes(Run(Initial(now), actions).history, id)| >= 10
    ensures var times := FailureTimes(Run(Initial(now), actions).history, id);
      && times[9] - times[0] >= 810_000
      && forall k | 0 <= k < 9 :: times[k + 1] - times[k] >= WAITS[k]
  {
    SpreadRun(Initial(now), actions, me);
    SpreadAddsUp(FailureTimes(Run(Initial(now), actions).history, id));
  }

  lemma SpreadAddsUp(times: seq<int>)
    requires Spread(times) && |times| >= 10
    ensures times[9] - times[0] >= 810_000 && forall k | 0 <= k < 9 :: times[k + 1] - times[k] >= WAITS[k]
  {
    assert times[1] - times[0] >= 2_000 && times[2] - times[1] >= 4_000 && times[3] - times[2] >= 8_000;
    assert times[4] - times[3] >= 16_000 && times[5] - times[4] >= 32_000 && times[6] - times[5] >= 64_000;
    assert times[7] - times[6] >= 128_000 && times[8] - times[7] >= 256_000 && times[9] - times[8] >= 300_000;
  }

  // ------------------------------------------------------------ the three writes

  /** A claim takes a row exactly when it is neither published nor dead-lettered and unlocked for over a minute. */
  lemma ClaimWrites(s: State, a: Action)
    requires a.Claim? && Enabled(s, a)
    ensures var t, queue := Apply(s, a), PhaseOf(s, a.me).queue;
      var id := queue[0];
      if id in s.rows && s.rows[id].publishedAt.None? && s.rows[id].deadLetteredAt.None?
         && (s.rows[id].lockedAt.None? || a.stamp - s.rows[id].lockedAt.value > 60_000)
      then t.rows == s.rows[id := s.rows[id].(lockedAt := Some(a.stamp), lockedBy := Some(a.me))]
           && PhaseOf(t, a.me) == Owning(id, a.stamp, queue[1..])
      else t.rows == s.rows && PhaseOf(t, a.me) == Walking(queue[1..])
  {
  }

  /** The success write releases the row and clears the error; the attempts stay. */
  lemma SuccessWrites(s: State, a: Action)
    requires a.Mark? && Enabled(s, a)
    ensures var id := PhaseOf(s, a.me).id;
      Apply(s, a).rows == s.rows[id := s.rows[id].(
        publishedAt := Some(s.now), lockedAt := None, lockedBy := None, lastError := None)]
  {
  }

  /** The failure write releases the row and keeps the error; the tenth attempt dead-letters it. */
  lemma FailureWrites(s: State, a: Action)
    requires a.RecordFailure? && Enabled(s, a)
    ensures var p := PhaseOf(s, a.me);
      var r, t := s.rows[p.id], Apply(s, a);
      && t.rows == s.rows[p.id := t.rows[p.id]]
      && t.rows[p.id] == r.(attempts := p.read + 1, lockedAt := None, lockedBy := None, lastError := Some(a.error),
                            nextAttemptAt := t.rows[p.id].nextAttemptAt, deadLetteredAt := t.rows[p.id].deadLetteredAt)
      && (if p.read >= 9 then
            t.rows[p.id].deadLetteredAt == Some(s.now) && t.rows[p.id].nextAttemptAt == r.nextAttemptAt
          else t.rows[p.id].deadLetteredAt == r.deadLetteredAt
               && t.rows[p.id].nextAttemptAt == s.now + WAITS[p.read])
  {
    var read := PhaseOf(s, a.me).read;
    if read < 9 {
      BackoffTable(read + 1);
    }
  }

  /** What a scan may return, spelled out. */
  lemma BatchMeans(t: Table, now: int, batch: seq<Id>)
    requires IsBatch(t, now, batch)
    ensures |batch| <= 50
    ensures forall i, j | 0 <= i < j < |batch| ::
      batch[i] != batch[j] && batch[i] in t && batch[j] in t && t[batch[i]].createdAt <= t[batch[j]].createdAt
    ensures forall id | id in batch :: id in t && IsDue(t[id], now)
    ensures forall id | id in t && IsDue(t[id], now) && id !in batch ::
      |batch| == 50 && forall b | b in batch :: b in t && t[b].createdAt <= t[id].createdAt
  {
    forall id | id in t && IsDue(t[id], now) ensures id in DueIds(t, now) {}
  }

  /** Unfinished, past its `nextAttemptAt`, and not locked within the last minute. */
  predicate IsDue(r: Row, now: int) {
    && r.publishedAt.None? && r.deadLetteredAt.None? && r.nextAttemptAt <= now
    && (r.lockedAt.None? || now - r.lockedAt.value > 60_000)
  }
}
