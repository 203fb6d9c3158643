/**
 No open record is ever stuck: whatever state crashes and failures have left, one
 resting instance can still publish it, once lease and backoff have run out.
 */
module OutboxProgress {
  import opened OutboxRow
  import opened OutboxProtocol
  import opened OutboxPublisher

  function OpenIds(t: Table): set<Id> {
    set id | id in t && Open(t[id])
  }

  /** The query always has an answer. */
  lemma {:induction false} OldestOf(t: Table, ids: set<Id>) returns (oldest: Id)
    requires ids != {} && ids <= t.Keys
    ensures oldest in ids && forall id | id in ids :: t[oldest].createdAt <= t[id].createdAt
    decreases |ids|
  {
    var some :| some in ids;
    if ids == {some} {
      oldest := some;
    } else {
      var other := OldestOf(t, ids - {some});
      oldest := if t[some].createdAt <= t[other].createdAt then some else other;
    }
  }

  /** The `n` oldest of some rows, or all of them. */
  ghost predicate AreOldest(t: Table, ids: set<Id>, n: nat, batch: seq<Id>)
    requires ids <= t.Keys
  {
    && Distinct(batch) && |batch| <= n
    && (forall k | 0 <= k < |batch| :: batch[k] in ids)
    && (forall i, j | 0 <= i < j < |batch| :: t[batch[i]].createdAt <= t[batch[j]].createdAt)
    && (forall id | id in ids && id !in batch ::
          |batch| == n && forall b | b in batch :: t[b].createdAt <= t[id].createdAt)
  }

  lemma {:induction false} BatchOf(t: Table, ids: set<Id>, n: nat) returns (batch: seq<Id>)
    requires ids <= t.Keys
    ensures AreOldest(t, ids, n, batch)
    decreases n
  {
    if n == 0 || ids == {} {
      batch := [];
    } else {
      var first := OldestOf(t, ids);
      var rest := BatchOf(t, ids - {first}, n - 1);
      batch := [first] + rest;
      assert forall k | 0 < k < |batch| :: batch[k] == rest[k - 1];
      assert forall id :: id in batch <==> id == first || id in rest;
    }
  }

  lemma {:induction false} ClockMovesOn(
    w: Work, me: Instance, queue: seq<Id>, outcome: Id -> Outcome, delay: Id -> nat)
    requires forall k | 0 <= k < |queue| :: queue[k] in w.table
    ensures Pass(w, me, queue, outcome, delay).clock >= w.clock
    decreases |queue|
  {
    if queue != [] && !w.threw {
      ClockMovesOn(PublishOne(w, me, queue[0], outcome(queue[0]), delay(queue[0])), me, queue[1..], outcome, delay);
    }
  }

  /** The steps belong to one instance and the clock. */
  predicate OnlyBy(actions: seq<Action>, me: Instance) {
    forall k | 0 <= k < |actions| :: actions[k].Tick? || (!actions[k].Enqueue? && actions[k].me == me)
  }

  /** One clean pass publishes a due record, or as many older ones as fit, and leaves it due. */
  lemma OnePass(s: State, me: Instance, id: Id) returns (actions: seq<Action>)
    requires PhaseOf(s, me).Resting? && id in s.rows && Due(s.rows[id], s.now)
    ensures OnlyBy(actions, me)
    ensures var t := Run(s, actions);
      && PhaseOf(t, me).Resting? && id in t.rows
      && (t.rows[id].publishedAt.Some?
          || (Due(t.rows[id], t.now) && OpenIds(t.rows) < OpenIds(s.rows)))
  {
    var batch := BatchOf(s.rows, DueIds(s.rows, s.now), BATCH_SIZE);
    var outcome, delay: Id -> nat := (x: Id) => Delivers, (x: Id) => 0;
    actions := PassIsARun(s, me, batch, outcome, delay);
    var w := Work(s.now, s.rows, [], false);
    CleanPassPublishesTheBatch(w, me, batch, outcome, delay);
    ClockMovesOn(w, me, batch, outcome, delay);
    var done := Pass(w, me, batch, outcome, delay);
    if id !in batch {
      assert batch[0] in batch && batch[0] in DueIds(s.rows, s.now);
      assert WellPublished(s.rows[batch[0]], done.table[batch[0]]);
      assert batch[0] in OpenIds(s.rows) && batch[0] !in OpenIds(done.table);
      forall i | i in OpenIds(done.table) ensures i in OpenIds(s.rows) {
        assert i in batch ==> WellPublished(s.rows[i], done.table[i]);
      }
    }
  }

  lemma {:induction false} PassesPublish(s: State, me: Instance, id: Id) returns (actions: seq<Action>)
    requires PhaseOf(s, me).Resting? && id in s.rows && Due(s.rows[id], s.now)
    ensures OnlyBy(actions, me)
    ensures id in Run(s, actions).rows && Run(s, actions).rows[id].publishedAt.Some?
    decreases OpenIds(s.rows)
  {
    actions := OnePass(s, me, id);
    var t := Run(s, actions);
    if t.rows[id].publishedAt.None? {
      var more := PassesPublish(t, me, id);
      RunConcat(s, actions, more);
      actions := actions + more;
    }
  }

  /**
   From any state at all, with other instances crashed or stuck wherever they are: a run of one resting instance
   and the clock publishes any given open record.
   */
  lemma NoOpenRecordIsStuck(s: State, me: Instance, id: Id) returns (actions: seq<Action>)
    requires PhaseOf(s, me).Resting? && id in s.rows && Open(s.rows[id])
    ensures OnlyBy(actions, me)
    ensures id in Run(s, actions).rows && Run(s, actions).rows[id].publishedAt.Some?
  {
    var r := s.rows[id];
    var backoff := if r.nextAttemptAt > s.now then r.nextAttemptAt - s.now else 0;
    var lease := if r.lockedAt.Some? && r.lockedAt.value + LEASE_MS + 1 > s.now
      then r.lockedAt.value + LEASE_MS + 1 - s.now else 0;
    var wait := Tick(backoff + lease);
    var more := PassesPublish(Apply(s, wait), me, id);
    actions := [wait] + more;
    RunOne(s, wait);
    RunConcat(s, [wait], more);
  }
}
