/**
 Any number of publisher instances working on one outbox table.

 Every await of `publishReady` and `publish` is one step, so steps of different
 instances interleave freely; reads, sends and writes may fail and an instance
 may crash at any point.  The instances share a clock.
 */
module OutboxProtocol {
  import opened Prelude
  import opened OutboxRow

  /** Where an instance is.  `stamp` is the `lockedAt` it wrote, `read` the attempt count it read. */
  datatype Phase =
    | Resting
    | Walking(queue: seq<Id>)
    | Owning(id: Id, stamp: int, queue: seq<Id>)
    | Sending(id: Id, stamp: int, read: nat, queue: seq<Id>)
    | Marking(id: Id, stamp: int, read: nat, queue: seq<Id>)
    | Failing(id: Id, stamp: int, read: nat, queue: seq<Id>)
  {
    /** Between the claim of `id` and the last write of that publish. */
    predicate Holds() { !Resting? && !Walking? }
    predicate HasRead() { Sending? || Marking? || Failing? }
  }

  /** What happened, in order: acknowledged sends and recorded failures. */
  datatype Fact =
    | Delivered(id: Id, sender: Instance, at: int)
    | FailureRecorded(id: Id, sender: Instance, at: int)

  datatype State = State(now: int, rows: Table, phases: map<Instance, Phase>, history: seq<Fact>)

  function PhaseOf(s: State, i: Instance): Phase {
    if i in s.phases then s.phases[i] else Resting
  }

  function With(s: State, i: Instance, p: Phase): State {
    s.(phases := s.phases[i := p])
  }

  function Initial(now: int): State {
    State(now, map[], map[], [])
  }

  datatype Action =
    | Tick(ms: nat)
    | Enqueue(row: Id)
    | Scan(me: Instance, batch: seq<Id>)
    | Claim(me: Instance, stamp: int)
    | Read(me: Instance)
    | ReadThrows(me: Instance)
    | Deliver(me: Instance)
    | DeliverThrows(me: Instance)
    | Mark(me: Instance)
    | MarkThrows(me: Instance)
    | RecordFailure(me: Instance, error: string)
    | RecordThrows(me: Instance)
    | EndPass(me: Instance)
    | Crash(me: Instance)

  ghost predicate Enabled(s: State, a: Action) {
    match a
    case Tick(_) => true
    case Enqueue(id) => id !in s.rows
    case Scan(i, batch) => PhaseOf(s, i).Resting? && IsBatch(s.rows, s.now, batch)
    case Claim(i, stamp) => PhaseOf(s, i).Walking? && |PhaseOf(s, i).queue| > 0 && stamp <= s.now
    case Read(i) => PhaseOf(s, i).Owning? && PhaseOf(s, i).id in s.rows
    case ReadThrows(i) => PhaseOf(s, i).Owning?
    case Deliver(i) => PhaseOf(s, i).Sending?
    case DeliverThrows(i) => PhaseOf(s, i).Sending?
    case Mark(i) => PhaseOf(s, i).Marking? && PhaseOf(s, i).id in s.rows
    case MarkThrows(i) => PhaseOf(s, i).Marking?
    case RecordFailure(i, _) => PhaseOf(s, i).Failing? && PhaseOf(s, i).id in s.rows
    case RecordThrows(i) => PhaseOf(s, i).Failing?
    case EndPass(i) => PhaseOf(s, i) == Walking([])
    case Crash(_) => true
  }

  /** The effect of an enabled action. */
  ghost function Effect(s: State, a: Action): State
    requires Enabled(s, a)
  {
    match a
    case Tick(ms) => s.(now := s.now + ms)
    case Enqueue(id) => s.(rows := s.rows[id := NewRow(s.now)])
    case Scan(i, batch) => With(s, i, Walking(batch))
    case Claim(i, stamp) =>
      var queue := PhaseOf(s, i).queue;
      var id := queue[0];
      if id in s.rows && Claimable(s.rows[id], stamp) then
        With(s.(rows := s.rows[id := Claimed(s.rows[id], stamp, i)]), i, Owning(id, stamp, queue[1..]))
      else With(s, i, Walking(queue[1..]))
    case Read(i) =>
      var p := PhaseOf(s, i);
      With(s, i, Sending(p.id, p.stamp, s.rows[p.id].attempts, p.queue))
    case Deliver(i) =>
      var p := PhaseOf(s, i);
      With(s.(history := s.history + [Delivered(p.id, i, s.now)]), i, Marking(p.id, p.stamp, p.read, p.queue))
    case DeliverThrows(i) =>
      var p := PhaseOf(s, i);
      With(s, i, Failing(p.id, p.stamp, p.read, p.queue))
    case Mark(i) =>
      var p := PhaseOf(s, i);
      With(s.(rows := s.rows[p.id := Published(s.rows[p.id], s.now)]), i, Walking(p.queue))
    case MarkThrows(i) =>
      var p := PhaseOf(s, i);
      With(s, i, Failing(p.id, p.stamp, p.read, p.queue))
    case RecordFailure(i, error) =>
      var p := PhaseOf(s, i);
      With(s.(rows := s.rows[p.id := Failed(s.rows[p.id], p.read, s.now, error)],
              history := s.history + [FailureRecorded(p.id, i, s.now)]), i, Walking(p.queue))
    case ReadThrows(i) => With(s, i, Resting)
    case RecordThrows(i) => With(s, i, Resting)
    case EndPass(i) => With(s, i, Resting)
    case Crash(i) => With(s, i, Resting)
  }

  ghost function Apply(s: State, a: Action): State {
    if Enabled(s, a) then Effect(s, a) else s
  }

  ghost function Run(s: State, actions: seq<Action>): State
    decreases |actions|
  {
    if actions == [] then s else Run(Apply(s, actions[0]), actions[1..])
  }

  /** Every live publish is at most one lease, a minute, away from its claim. */
  ghost predicate Timely(s: State) {
    forall i | i in s.phases && s.phases[i].Holds() :: s.now <= s.phases[i].stamp + 60_000
  }

  ghost predicate TimelyRun(s: State, actions: seq<Action>)
    decreases |actions|
  {
    Timely(s) && (actions != [] ==> TimelyRun(Apply(s, actions[0]), actions[1..]))
  }

  function Failures(h: seq<Fact>, id: Id): nat {
    if h == [] then 0
    else Failures(h[..|h| - 1], id) + if h[|h| - 1].FailureRecorded? && h[|h| - 1].id == id then 1 else 0
  }

  ghost predicate WasDelivered(h: seq<Fact>, id: Id) {
    exists k :: 0 <= k < |h| && h[k].Delivered? && h[k].id == id
  }

  lemma FailuresStep(h: seq<Fact>, f: Fact, id: Id)
    ensures Failures(h + [f], id) == Failures(h, id) + if f.FailureRecorded? && f.id == id then 1 else 0
  {
  }

  // ------------------------------------------- what holds with no timing at all

  /**
   Kept by every interleaving: a row carries no more attempts than failures were
   recorded for it, is marked published only after an acknowledged send, and is
   dead-lettered only after ten recorded failures.
   */
  ghost predicate RowAlways(h: seq<Fact>, id: Id, r: Row) {
    && r.attempts <= Failures(h, id)
    && (r.publishedAt.Some? ==> WasDelivered(h, id))
    && (r.deadLetteredAt.Some? ==> Failures(h, id) >= 10)
  }

  ghost predicate PhaseAlways(h: seq<Fact>, p: Phase) {
    && (p.HasRead() ==> p.read <= Failures(h, p.id))
    && (p.Marking? ==> WasDelivered(h, p.id))
  }

  ghost predicate AlwaysInv(s: State) {
    && (forall id | id in s.rows :: RowAlways(s.history, id, s.rows[id]))
    && (forall i | i in s.phases :: PhaseAlways(s.history, s.phases[i]))
  }

  lemma HistoryGrows(h: seq<Fact>, f: Fact)
    ensures forall id :: Failures(h, id) <= Failures(h + [f], id)
    ensures forall id :: WasDelivered(h, id) ==> WasDelivered(h + [f], id)
    ensures f.Delivered? ==> WasDelivered(h + [f], f.id)
    ensures f.FailureRecorded? ==> Failures(h + [f], f.id) == Failures(h, f.id) + 1
  {
    forall id ensures Failures(h, id) <= Failures(h + [f], id) { FailuresStep(h, f, id); }
    forall id | WasDelivered(h, id) ensures WasDelivered(h + [f], id) {
      var k :| 0 <= k < |h| && h[k].Delivered? && h[k].id == id;
      assert (h + [f])[k] == h[k];
    }
    assert (h + [f])[|h|] == f;
    FailuresStep(h, f, f.id);
  }

  ghost predicate FinishedStays(s: State, t: State) {
    forall id | id in s.rows ::
      && id in t.rows
      && (s.rows[id].publishedAt.Some? ==> t.rows[id].publishedAt.Some?)
      && (s.rows[id].deadLetteredAt.Some? ==> t.rows[id].deadLetteredAt.Some?)
  }

  /** The steps that write neither a row nor the history. */
  predicate IsSilent(a: Action) {
    !a.Enqueue? && !a.Claim? && !a.Deliver? && !a.Mark? && !a.RecordFailure?
  }

  lemma AlwaysSilent(s: State, a: Action)
    requires AlwaysInv(s) && Enabled(s, a) && IsSilent(a)
    ensures AlwaysInv(Effect(s, a)) && FinishedStays(s, Effect(s, a))
  {
  }

  lemma AlwaysWrite(s: State, a: Action)
    requires AlwaysInv(s) && Enabled(s, a) && (a.Enqueue? || a.Claim? || a.Mark?)
    ensures AlwaysInv(Effect(s, a)) && FinishedStays(s, Effect(s, a))
  {
  }

  lemma AlwaysHistory(s: State, a: Action)
    requires AlwaysInv(s) && Enabled(s, a) && (a.Deliver? || a.RecordFailure?)
    ensures AlwaysInv(Effect(s, a)) && FinishedStays(s, Effect(s, a))
  {
    var t := Effect(s, a);
    var p := PhaseOf(s, a.me);
    assert PhaseAlways(s.history, p);
    var f := if a.Deliver? then Delivered(p.id, a.me, s.now) else FailureRecorded(p.id, a.me, s.now);
    HistoryGrows(s.history, f);
    forall id | id in t.rows ensures RowAlways(t.history, id, t.rows[id]) {
      assert RowAlways(s.history, id, s.rows[id]);
    }
    forall i | i in t.phases ensures PhaseAlways(t.history, t.phases[i]) {
      assert i in s.phases ==> PhaseAlways(s.history, s.phases[i]);
    }
  }

  /** One step: the invariant survives, and `publishedAt` and `deadLetteredAt`, once set, stay set. */
  lemma AlwaysStep(s: State, a: Action)
    requires AlwaysInv(s)
    ensures AlwaysInv(Apply(s, a)) && FinishedStays(s, Apply(s, a))
  {
    if Enabled(s, a) {
      if IsSilent(a) {
        AlwaysSilent(s, a);
      } else if a.Deliver? || a.RecordFailure? {
        AlwaysHistory(s, a);
      } else {
        AlwaysWrite(s, a);
      }
    }
  }

  /**
   Any number of instances, any interleaving, crashes, late publishes: `publishedAt`
   and `deadLetteredAt` are never cleared, and neither is set without its cause.
   */
  lemma {:induction false} PublishedOnlyAfterASend(s: State, actions: seq<Action>)
    requires AlwaysInv(s)
    ensures AlwaysInv(Run(s, actions)) && FinishedStays(s, Run(s, actions))
    decreases |actions|
  {
    if actions != [] {
      AlwaysStep(s, actions[0]);
      PublishedOnlyAfterASend(Apply(s, actions[0]), actions[1..]);
    }
  }

  // ------------------------------------------------- the lease assumption

  ghost predicate LeaseInv(s: State) {
    && (forall i | i in s.phases && s.phases[i].Holds() ::
          var p := s.phases[i];
          && p.id in s.rows
          && Open(s.rows[p.id])
          && s.rows[p.id].lockedAt == Some(p.stamp)
          && s.rows[p.id].lockedBy == Some(i)
          && (p.HasRead() ==> p.read == s.rows[p.id].attempts))
    && (forall id | id in s.rows ::
          && s.rows[id].attempts == Failures(s.history, id)
          && s.rows[id].attempts <= 10
          && (s.rows[id].deadLetteredAt.Some? <==> s.rows[id].attempts == 10)
          && !(s.rows[id].publishedAt.Some? && s.rows[id].deadLetteredAt.Some?))
    && (forall k | 0 <= k < |s.history| :: s.history[k].id in s.rows)
  }

  lemma {:induction false} NoFailuresYet(h: seq<Fact>, id: Id)
    requires forall k | 0 <= k < |h| :: h[k].id != id
    ensures Failures(h, id) == 0
    decreases |h|
  {
    if h != [] {
      NoFailuresYet(h[..|h| - 1], id);
    }
  }

  ghost predicate FinishedFrozen(s: State, t: State) {
    forall id | id in s.rows && !Open(s.rows[id]) :: id in t.rows && t.rows[id] == s.rows[id]
  }

  lemma LeaseSilent(s: State, a: Action)
    requires LeaseInv(s) && Enabled(s, a) && IsSilent(a)
    ensures LeaseInv(Effect(s, a)) && FinishedFrozen(s, Effect(s, a))
  {
  }

  /** A claim cannot succeed on a row some live instance still holds. */
  lemma LeaseClaim(s: State, a: Action)
    requires LeaseInv(s) && Timely(s) && Enabled(s, a) && a.Claim?
    ensures LeaseInv(Effect(s, a)) && FinishedFrozen(s, Effect(s, a))
  {
    var id := PhaseOf(s, a.me).queue[0];
    if id in s.rows && Claimable(s.rows[id], a.stamp) {
      forall i | i in s.phases && s.phases[i].Holds() ensures s.phases[i].id != id {
        assert s.now <= s.phases[i].stamp + LEASE_MS;
      }
    }
  }

  lemma LeaseWrite(s: State, a: Action)
    requires LeaseInv(s) && Enabled(s, a) && (a.Enqueue? || a.Mark?)
    ensures LeaseInv(Effect(s, a)) && FinishedFrozen(s, Effect(s, a))
  {
    if a.Enqueue? {
      NoFailuresYet(s.history, a.row);
    }
  }

  lemma LeaseHistory(s: State, a: Action)
    requires LeaseInv(s) && Enabled(s, a) && (a.Deliver? || a.RecordFailure?)
    ensures LeaseInv(Effect(s, a)) && FinishedFrozen(s, Effect(s, a))
  {
    var f := if a.Deliver? then Delivered(PhaseOf(s, a.me).id, a.me, s.now)
             else FailureRecorded(PhaseOf(s, a.me).id, a.me, s.now);
    forall id
      ensures Failures(s.history + [f], id)
           == Failures(s.history, id) + if f.FailureRecorded? && f.id == id then 1 else 0
    {
      FailuresStep(s.history, f, id);
    }
  }

  lemma LeaseStep(s: State, a: Action)
    requires LeaseInv(s) && Timely(s)
    ensures LeaseInv(Apply(s, a)) && FinishedFrozen(s, Apply(s, a))
  {
    if Enabled(s, a) {
      if IsSilent(a) {
        LeaseSilent(s, a);
      } else if a.Claim? {
        LeaseClaim(s, a);
      } else if a.Deliver? || a.RecordFailure? {
        LeaseHistory(s, a);
      } else {
        LeaseWrite(s, a);
      }
    }
  }

  /**
   If every live publish ends within its lease, then in every run: the attempt count is
   exactly the number of recorded failures, a record is dead-lettered exactly at the tenth,
   never both published and dead-lettered, and a finished row never changes again.
   */
  lemma {:induction false} LeaseSafety(s: State, actions: seq<Action>)
    requires LeaseInv(s) && TimelyRun(s, actions)
    ensures LeaseInv(Run(s, actions)) && FinishedFrozen(s, Run(s, actions))
    decreases |actions|
  {
    if actions != [] {
      LeaseStep(s, actions[0]);
      LeaseSafety(Apply(s, actions[0]), actions[1..]);
    }
  }

  /** From the empty table: at most one live instance is between claim and finish of a record. */
  lemma MutualExclusion(now: int, actions: seq<Action>, i: Instance, j: Instance)
    requires TimelyRun(Initial(now), actions)
    requires PhaseOf(Run(Initial(now), actions), i).Holds()
    requires PhaseOf(Run(Initial(now), actions), j).Holds()
    requires PhaseOf(Run(Initial(now), actions), i).id == PhaseOf(Run(Initial(now), actions), j).id
    ensures i == j
  {
    LeaseSafety(Initial(now), actions);
  }

  // ------------------------------------------------------- runs in pieces

  lemma {:induction false} RunConcat(s: State, first: seq<Action>, second: seq<Action>)
    ensures Run(s, first + second) == Run(Run(s, first), second)
    decreases |first|
  {
    if first == [] {
      assert [] + second == second;
    } else {
      assert (first + second)[1..] == first[1..] + second;
      RunConcat(Apply(s, first[0]), first[1..], second);
    }
  }

  lemma RunSnoc(s: State, first: seq<Action>, a: Action)
    ensures Run(s, first + [a]) == Apply(Run(s, first), a)
  {
    RunConcat(s, first, [a]);
    assert Run(Run(s, first), [a]) == Run(Apply(Run(s, first), a), []);
  }
}
