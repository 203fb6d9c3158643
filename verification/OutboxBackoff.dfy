/**
 Backoff spacing: it holds when a single instance publishes, and two instances
 can break it, because the claim does not look at `nextAttemptAt` again.
 */
module OutboxBackoff {
  import opened Prelude
  import opened OutboxRow
  import opened OutboxProtocol

  /** A step of instance `me` or of the surroundings. */
  predicate SoloAction(a: Action, me: Instance) {
    a.Tick? || a.Enqueue? || a.me == me
  }

  function QueueOf(p: Phase): seq<Id> {
    if p.Resting? then [] else p.queue
  }

  /** Everything the only instance still means to claim, or holds, has waited out its backoff. */
  ghost predicate SoloInv(s: State, me: Instance) {
    var p := PhaseOf(s, me);
    && s.phases.Keys <= {me}
    && Distinct(QueueOf(p))
    && (forall k | 0 <= k < |QueueOf(p)| ::
          QueueOf(p)[k] in s.rows && s.rows[QueueOf(p)[k]].nextAttemptAt <= s.now)
    && (p.Holds() ==> p.id in s.rows && s.rows[p.id].nextAttemptAt <= s.now && p.id !in p.queue)
  }

  lemma SoloStep(s: State, a: Action, me: Instance)
    requires SoloInv(s, me) && SoloAction(a, me)
    ensures SoloInv(Apply(s, a), me)
  {
    if Enabled(s, a) {
      var p, t := PhaseOf(s, me), Apply(s, a);
      if a.Claim? {
        assert QueueOf(p)[0] in s.rows;
        forall k | 0 <= k < |p.queue| - 1 ensures p.queue[1..][k] == p.queue[k + 1] {}
      }
      forall k | 0 <= k < |QueueOf(PhaseOf(t, me))|
        ensures QueueOf(PhaseOf(t, me))[k] in t.rows
        ensures t.rows[QueueOf(PhaseOf(t, me))[k]].nextAttemptAt <= t.now
      {
      }
    }
  }

  lemma {:induction false} SoloRun(s: State, actions: seq<Action>, me: Instance)
    requires SoloInv(s, me) && forall k | 0 <= k < |actions| :: SoloAction(actions[k], me)
    ensures SoloInv(Run(s, actions), me)
    decreases |actions|
  {
    if actions != [] {
      SoloStep(s, actions[0], me);
      SoloRun(Apply(s, actions[0]), actions[1..], me);
    }
  }

  /** With one instance no record is sent before its `nextAttemptAt`, crashes and restarts included. */
  lemma OneInstanceKeepsBackoff(now: int, actions: seq<Action>, me: Instance)
    requires forall k | 0 <= k < |actions| :: SoloAction(actions[k], me)
    requires PhaseOf(Run(Initial(now), actions), me).Sending?
    ensures var s := Run(Initial(now), actions);
      var id := PhaseOf(s, me).id;
      id in s.rows && s.rows[id].nextAttemptAt <= s.now
  {
    SoloRun(Initial(now), actions, me);
  }

  // ------------------------------------------ exactly when spacing breaks

  /** Nobody holds a record before its `nextAttemptAt`. */
  ghost predicate NoEarlyHolder(s: State) {
    forall i | i in s.phases && s.phases[i].Holds() && s.phases[i].id in s.rows ::
      s.rows[s.phases[i].id].nextAttemptAt <= s.now
  }

  /** A claim that succeeds on a record still waiting out its backoff: what the scan's filter would have stopped. */
  ghost predicate EarlyClaim(s: State, a: Action) {
    && a.Claim? && Enabled(s, a)
    && var id := PhaseOf(s, a.me).queue[0];
    && id in s.rows && Claimable(s.rows[id], a.stamp) && s.now < s.rows[id].nextAttemptAt
  }

  lemma SilentKeepsSpacing(s: State, a: Action)
    requires NoEarlyHolder(s) && Enabled(s, a) && IsSilent(a)
    ensures NoEarlyHolder(Effect(s, a))
  {
    var t := Effect(s, a);
    assert t.rows == s.rows && t.now >= s.now;
    forall i | i in t.phases && t.phases[i].Holds()
      ensures i in s.phases && s.phases[i].Holds() && s.phases[i].id == t.phases[i].id
    {
    }
  }

  /** The holder's own writes release the record, and nobody else holds it. */
  lemma WritesKeepSpacing(s: State, a: Action)
    requires LeaseInv(s) && NoEarlyHolder(s) && Enabled(s, a) && !a.Claim? && !IsSilent(a)
    ensures NoEarlyHolder(Effect(s, a))
  {
    var t := Effect(s, a);
    forall i | i in t.phases && t.phases[i].Holds()
      ensures i in s.phases && s.phases[i].Holds() && s.phases[i].id == t.phases[i].id
      ensures t.rows[t.phases[i].id] == s.rows[t.phases[i].id]
    {
      assert i in s.phases && s.phases[i].Holds() && s.phases[i].id == t.phases[i].id;
      assert s.rows[s.phases[i].id].lockedBy == Some(i);
    }
  }

  lemma ClaimSpacing(s: State, a: Action)
    requires LeaseInv(s) && Timely(s) && NoEarlyHolder(s) && Enabled(s, a) && a.Claim?
    ensures NoEarlyHolder(Effect(s, a)) <==> !EarlyClaim(s, a)
  {
    var t := Effect(s, a);
    if EarlyClaim(s, a) {
      assert t.phases[a.me].Holds();
    }
  }

  /** While publishes are in time, one step keeps the spacing if and only if it is not an early claim. */
  lemma SpacingStep(s: State, a: Action)
    requires LeaseInv(s) && Timely(s) && NoEarlyHolder(s)
    ensures NoEarlyHolder(Apply(s, a)) <==> !EarlyClaim(s, a)
  {
    hide Effect;
    hide LeaseInv;
    hide NoEarlyHolder;
    if Enabled(s, a) {
      if a.Claim? {
        ClaimSpacing(s, a);
      } else if IsSilent(a) {
        SilentKeepsSpacing(s, a);
      } else {
        WritesKeepSpacing(s, a);
      }
    }
  }

  /** At every point of the run nobody holds a record early. */
  ghost predicate AlwaysSpaced(s: State, actions: seq<Action>)
    decreases |actions|
  {
    NoEarlyHolder(s) && (actions != [] ==> AlwaysSpaced(Apply(s, actions[0]), actions[1..]))
  }

  ghost predicate ClaimsEarly(s: State, actions: seq<Action>)
    decreases |actions|
  {
    actions != [] && (EarlyClaim(s, actions[0]) || ClaimsEarly(Apply(s, actions[0]), actions[1..]))
  }

  lemma {:induction false} SpacingRun(s: State, actions: seq<Action>)
    requires LeaseInv(s) && TimelyRun(s, actions) && NoEarlyHolder(s)
    ensures AlwaysSpaced(s, actions) <==> !ClaimsEarly(s, actions)
    decreases |actions|
  {
    if actions != [] {
      SpacingStep(s, actions[0]);
      LeaseStep(s, actions[0]);
      if NoEarlyHolder(Apply(s, actions[0])) {
        SpacingRun(Apply(s, actions[0]), actions[1..]);
      }
    }
  }

  /**
   Any number of instances whose publishes are in time: the backoff is kept throughout a run if and only if no
   claim succeeds on a record whose `nextAttemptAt` lies ahead, the filter the claim lacks.
   */
  lemma SpacedUnlessClaimedEarly(now: int, actions: seq<Action>)
    requires TimelyRun(Initial(now), actions)
    ensures AlwaysSpaced(Initial(now), actions) <==> !ClaimsEarly(Initial(now), actions)
  {
    SpacingRun(Initial(now), actions);
  }

  /** And an early claim can go on to an early send: reading takes no time. */
  lemma EarlyClaimSendsEarly(s: State, a: Action)
    requires EarlyClaim(s, a)
    ensures var t := Apply(Apply(s, a), Read(a.me));
      PhaseOf(t, a.me).Sending? && PhaseOf(t, a.me).id in t.rows && t.now < t.rows[PhaseOf(t, a.me).id].nextAttemptAt
  {
  }

  // ------------------------------------------------------- two instances

  lemma {:induction false} TimelySnoc(s: State, actions: seq<Action>, a: Action)
    requires TimelyRun(s, actions) && Timely(Apply(Run(s, actions), a))
    ensures TimelyRun(s, actions + [a])
    decreases |actions|
  {
    if actions == [] {
      assert ([] + [a])[1..] == [];
    } else {
      assert (actions + [a])[1..] == actions[1..] + [a];
      TimelySnoc(Apply(s, actions[0]), actions[1..], a);
    }
  }

  /** `t` is reached from the empty table at time 0, in time throughout when `timely`. */
  ghost predicate Reached(actions: seq<Action>, t: State, timely: bool) {
    && Run(Initial(0), actions) == t
    && (timely ==> TimelyRun(Initial(0), actions))
  }

  /** One more step of a concrete run; the state it leads to is written out by the caller. */
  lemma Go(actions: seq<Action>, s: State, a: Action, t: State, timely: bool) returns (extended: seq<Action>)
    requires Reached(actions, s, timely) && Enabled(s, a) && t == Effect(s, a)
    requires timely ==> Timely(t)
    ensures extended == actions + [a] && Reached(extended, t, timely)
  {
    extended := actions + [a];
    RunSnoc(Initial(0), actions, a);
    if timely {
      TimelySnoc(Initial(0), actions, a);
    }
  }

  lemma OnlyRowIsBatch(s: State)
    requires s.rows.Keys == {0} && Due(s.rows[0], s.now)
    ensures IsBatch(s.rows, s.now, [0])
  {
  }

  const FRESH: Row := NewRow(0)

  lemma FirstInstanceScans(other: Phase) returns (actions: seq<Action>)
    requires other == Resting || other == Walking([0])
    ensures Reached(actions, State(0, map[0 := FRESH], map[1 := Walking([0]), 2 := other], []), true)
  {
    var rows := map[0 := FRESH];
    var s0 := State(0, rows, map[], []);
    actions := Go([], Initial(0), Enqueue(0), s0, true);
    OnlyRowIsBatch(s0);
    var s1 := State(0, rows, map[2 := other], []);
    if other.Resting? {
      actions := Go(actions, s0, Crash(2), s1, true);
    } else {
      actions := Go(actions, s0, Scan(2, [0]), s1, true);
    }
    var s2 := State(0, rows, map[1 := Walking([0]), 2 := other], []);
    actions := Go(actions, s1, Scan(1, [0]), s2, true);
  }

  /** One fresh record, scanned, claimed and read by instance 1 at time 0; instance 2 is in `other`. */
  lemma FirstInstanceReads(other: Phase) returns (actions: seq<Action>)
    requires other == Resting || other == Walking([0])
    ensures Reached(actions,
      State(0, map[0 := Claimed(FRESH, 0, 1)], map[1 := Sending(0, 0, 0, []), 2 := other], []), true)
  {
    actions := FirstInstanceScans(other);
    var s2 := State(0, map[0 := FRESH], map[1 := Walking([0]), 2 := other], []);
    var held := map[0 := Claimed(FRESH, 0, 1)];
    var s3 := State(0, held, map[1 := Owning(0, 0, []), 2 := other], []);
    assert [0][1..] == [];
    actions := Go(actions, s2, Claim(1, 0), s3, true);
    var s4 := State(0, held, map[1 := Sending(0, 0, 0, []), 2 := other], []);
    actions := Go(actions, s3, Read(1), s4, true);
  }

  /**
   Two instances scan the same due record; one fails and sets the backoff, and the other,
   still holding its old scan, claims and sends at once: early although every publish is in time.
   */
  lemma TwoInstancesBreakBackoff() returns (actions: seq<Action>)
    ensures TimelyRun(Initial(0), actions)
    ensures var s := Run(Initial(0), actions);
      PhaseOf(s, 2).Sending? && PhaseOf(s, 2).id in s.rows && s.now < s.rows[PhaseOf(s, 2).id].nextAttemptAt
  {
    actions := FirstInstanceReads(Walking([0]));
    var held := map[0 := Claimed(FRESH, 0, 1)];
    var s0 := State(0, held, map[1 := Sending(0, 0, 0, []), 2 := Walking([0])], []);
    var s1 := State(0, held, map[1 := Failing(0, 0, 0, []), 2 := Walking([0])], []);
    actions := Go(actions, s0, DeliverThrows(1), s1, true);
    var failed := Failed(held[0], 0, 0, "broker down");
    var log := [FailureRecorded(0, 1, 0)];
    var s2 := State(0, map[0 := failed], map[1 := Walking([]), 2 := Walking([0])], log);
    actions := Go(actions, s1, RecordFailure(1, "broker down"), s2, true);
    actions := OtherSendsEarly(actions, failed, log);
  }

  lemma OtherSendsEarly(before: seq<Action>, failed: Row, log: seq<Fact>) returns (actions: seq<Action>)
    requires failed == Failed(FRESH, 0, 0, "broker down")
    requires Reached(before, State(0, map[0 := failed], map[1 := Walking([]), 2 := Walking([0])], log), true)
    ensures TimelyRun(Initial(0), actions)
    ensures var s := Run(Initial(0), actions);
      PhaseOf(s, 2).Sending? && PhaseOf(s, 2).id in s.rows && s.now < s.rows[PhaseOf(s, 2).id].nextAttemptAt
  {
    assert Backoff(1) == 2_000;
    var s2 := State(0, map[0 := failed], map[1 := Walking([]), 2 := Walking([0])], log);
    var again := map[0 := Claimed(failed, 0, 2)];
    var s3 := State(0, again, map[1 := Walking([]), 2 := Owning(0, 0, [])], log);
    assert [0][1..] == [];
    actions := Go(before, s2, Claim(2, 0), s3, true);
    var s4 := State(0, again, map[1 := Walking([]), 2 := Sending(0, 0, 1, [])], log);
    actions := Go(actions, s3, Read(2), s4, true);
  }

  /**
   Without the lease assumption the count is only a lower bound: a publish that outlives its
   lease overwrites the other instance's failure, and two recorded failures leave a count of one.
   */
  lemma LatePublishLosesAFailure() returns (actions: seq<Action>)
    ensures var s := Run(Initial(0), actions);
      0 in s.rows && s.rows[0].attempts == 1 && Failures(s.history, 0) == 2
  {
    actions := FirstInstanceReads(Resting);
    var late := LEASE_MS + 1;
    var held := Claimed(FRESH, 0, 1);
    var slow := Sending(0, 0, 0, []);
    var s0 := State(0, map[0 := held], map[1 := slow, 2 := Resting], []);
    assert Reached(actions, s0, false);
    var s1 := State(late, map[0 := held], map[1 := slow, 2 := Resting], []);
    actions := Go(actions, s0, Tick(late), s1, false);
    OnlyRowIsBatch(s1);
    var s2 := State(late, map[0 := held], map[1 := slow, 2 := Walking([0])], []);
    actions := Go(actions, s1, Scan(2, [0]), s2, false);
    var stolen := Claimed(held, late, 2);
    var s3 := State(late, map[0 := stolen], map[1 := slow, 2 := Owning(0, late, [])], []);
    assert [0][1..] == [];
    actions := Go(actions, s2, Claim(2, late), s3, false);
    var s4 := State(late, map[0 := stolen], map[1 := slow, 2 := Sending(0, late, 0, [])], []);
    actions := Go(actions, s3, Read(2), s4, false);
    actions := BothFail(actions, s4);
  }

  lemma BothFail(before: seq<Action>, s: State) returns (actions: seq<Action>)
    requires s.rows.Keys == {0} && s.history == []
    requires s.phases == map[1 := Sending(0, 0, 0, []), 2 := Sending(0, s.now, 0, [])]
    requires Reached(before, s, false)
    ensures var t := Run(Initial(0), actions);
      0 in t.rows && t.rows[0].attempts == 1 && Failures(t.history, 0) == 2
  {
    var f1, f2 := FailureRecorded(0, 1, s.now), FailureRecorded(0, 2, s.now);
    var p1, p2 := Failing(0, 0, 0, []), Failing(0, s.now, 0, []);
    var t1 := s.(phases := map[1 := p1, 2 := s.phases[2]]);
    actions := Go(before, s, DeliverThrows(1), t1, false);
    var t2 := s.(phases := map[1 := p1, 2 := p2]);
    actions := Go(actions, t1, DeliverThrows(2), t2, false);
    var r1 := Failed(s.rows[0], 0, s.now, "slow broker");
    var t3 := State(s.now, map[0 := r1], map[1 := Walking([]), 2 := p2], [f1]);
    actions := Go(actions, t2, RecordFailure(1, "slow broker"), t3, false);
    var r2 := Failed(r1, 0, s.now, "slow broker");
    var t4 := State(s.now, map[0 := r2], map[1 := Walking([]), 2 := Walking([])], [f1, f2]);
    actions := Go(actions, t3, RecordFailure(2, "slow broker"), t4, false);
    FailuresStep([f1], f2, 0);
    FailuresStep([], f1, 0);
    assert [f1] + [f2] == [f1, f2] && [] + [f1] == [f1];
  }
}
