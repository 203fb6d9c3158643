/**
 `publishReady` and `publish` as the code runs them, proved against a recursive
 description of one pass, which in turn is a run of the interleaving protocol.
 */
module OutboxPublisher {
  import opened OutboxRow
  import opened OutboxProtocol

  /** How the awaits of one candidate end; `delay` below is how long they take together. */
  datatype Outcome =
    | Delivers
    | SendFails
    | MarkFails
    | RecordFails(sent: bool)
    | ReadFails
    | ClaimFails

  /** What one pass works on.  `sends` lists acknowledged sends in order; `threw` stops the pass. */
  datatype Work = Work(clock: int, table: Table, sends: seq<Id>, threw: bool)

  predicate WasSent(outcome: Outcome) {
    outcome.Delivers? || outcome.MarkFails? || (outcome.RecordFails? && outcome.sent)
  }

  /** One candidate: claim, read, send, then the success write or the failure write. */
  function PublishOne(w: Work, me: Instance, id: Id, outcome: Outcome, delay: nat): Work
    requires id in w.table
  {
    var row := w.table[id];
    if outcome.ClaimFails? then w.(threw := true)
    else if !Claimable(row, w.clock) then w
    else
      var held := Claimed(row, w.clock, me);
      var later := w.clock + delay;
      var sends := if WasSent(outcome) then w.sends + [id] else w.sends;
      match outcome
      case Delivers => Work(later, w.table[id := Published(held, later)], sends, false)
      case SendFails => Work(later, w.table[id := Failed(held, row.attempts, later, "error")], sends, false)
      case MarkFails => Work(later, w.table[id := Failed(held, row.attempts, later, "error")], sends, false)
      case RecordFails(_) => Work(later, w.table[id := held], sends, true)
      case ReadFails => Work(w.clock, w.table[id := held], sends, true)
      case ClaimFails => w
  }

  function Pass(w: Work, me: Instance, queue: seq<Id>, outcome: Id -> Outcome, delay: Id -> nat): Work
    requires forall k | 0 <= k < |queue| :: queue[k] in w.table
    decreases |queue|
  {
    if queue == [] || w.threw then w
    else Pass(PublishOne(w, me, queue[0], outcome(queue[0]), delay(queue[0])), me, queue[1..], outcome, delay)
  }

  // ------------------------------------------------------- the running code

  class Publisher {
    const me: Instance
    var running: bool
    var table: Table
    var clock: int
    var sends: seq<Id>

    constructor (me: Instance, table: Table, clock: int)
      ensures this.me == me && !running && this.table == table && this.clock == clock && sends == []
    {
      this.me, this.running, this.table, this.clock, this.sends := me, false, table, clock, [];
    }

    ghost function AsWork(threw: bool): Work
      reads this
    {
      Work(clock, table, sends, threw)
    }

    /** `findMany`: the oldest due rows first, at most fifty of them. */
    method FindCandidates() returns (batch: seq<Id>)
      ensures IsBatch(table, clock, batch)
    {
      batch := [];
      var rest := DueIds(table, clock);
      while rest != {} && |batch| < BATCH_SIZE
        invariant rest <= DueIds(table, clock) && |batch| <= BATCH_SIZE
        invariant forall id :: id in DueIds(table, clock) <==> id in rest || id in batch
        invariant forall k | 0 <= k < |batch| :: batch[k] in DueIds(table, clock) && batch[k] !in rest
        invariant Distinct(batch)
        invariant forall i, j :: 0 <= i < j < |batch| ==> table[batch[i]].createdAt <= table[batch[j]].createdAt
        invariant forall k, id :: 0 <= k < |batch| && id in rest ==> table[batch[k]].createdAt <= table[id].createdAt
        decreases rest
      {
        var next := Oldest(rest);
        batch := batch + [next];
        rest := rest - {next};
      }
    }

    method Oldest(ids: set<Id>) returns (oldest: Id)
      requires ids != {} && ids <= table.Keys
      ensures oldest in ids && forall id | id in ids :: table[oldest].createdAt <= table[id].createdAt
    {
      oldest :| oldest in ids;
      var rest := ids - {oldest};
      while rest != {}
        invariant rest < ids && oldest in ids
        invariant forall id | id in ids - rest :: table[oldest].createdAt <= table[id].createdAt
        decreases rest
      {
        var id :| id in rest;
        if table[id].createdAt < table[oldest].createdAt {
          oldest := id;
        }
        rest := rest - {id};
      }
    }

    method Publish(id: Id, outcome: Outcome, delay: nat) returns (threw: bool)
      requires id in table && !outcome.ClaimFails?
      modifies this`table, this`clock, this`sends
      ensures var row, later := old(table)[id], old(clock) + delay;
        && clock == (if outcome.ReadFails? then old(clock) else later)
        && sends == (if WasSent(outcome) then old(sends) + [id] else old(sends))
        && threw == (outcome.ReadFails? || outcome.RecordFails?)
        && table == (if threw then old(table)
                     else if outcome.Delivers? then old(table)[id := Published(row, later)]
                     else old(table)[id := Failed(row, row.attempts, later, "error")])
    {
      if outcome.ReadFails? {
        return true;
      }
      var record := table[id];
      clock := clock + delay;
      if WasSent(outcome) {
        sends := sends + [id];
      }
      if outcome.Delivers? {
        table := table[id := Published(table[id], clock)];
        return false;
      }
      if outcome.RecordFails? {
        return true;
      }
      table := table[id := Failed(table[id], record.attempts, clock, "error")];
      threw := false;
    }

    /** The loop body of a pass: claim the candidate and, if that took it, publish it. */
    method TryCandidate(id: Id, outcome: Outcome, delay: nat) returns (threw: bool)
      requires id in table
      modifies this`table, this`clock, this`sends
      ensures AsWork(threw) == PublishOne(old(AsWork(false)), me, id, outcome, delay)
    {
      if outcome.ClaimFails? {
        return true;
      }
      if !Claimable(table[id], clock) {
        return false;
      }
      table := table[id := Claimed(table[id], clock, me)];
      threw := Publish(id, outcome, delay);
    }

    /** A second timer tick during a pass does nothing; otherwise one pass over one batch, however it ends. */
    method PublishReady(outcome: Id -> Outcome, delay: Id -> nat) returns (threw: bool, ghost batch: seq<Id>)
      modifies this
      ensures old(running) ==> unchanged(this) && !threw
      ensures !old(running) ==>
        && !running
        && IsBatch(old(table), old(clock), batch)
        && AsWork(threw) == Pass(old(AsWork(false)), me, batch, outcome, delay)
    {
      threw, batch := false, [];
      if running {
        return;
      }
      running := true;
      var candidates := FindCandidates();
      batch := candidates;
      var k := 0;
      while k < |candidates| && !threw
        invariant 0 <= k <= |candidates|
        invariant table.Keys == old(table).Keys
        invariant Pass(AsWork(threw), me, candidates[k..], outcome, delay)
               == Pass(old(AsWork(false)), me, candidates, outcome, delay)
      {
        var id := candidates[k];
        threw := TryCandidate(id, outcome(id), delay(id));
        assert candidates[k..][1..] == candidates[k + 1..];
        k := k + 1;
      }
      running := false;
    }
  }

  // -------------------------------------------------- what a pass achieves

  ghost predicate AllClaimable(w: Work, queue: seq<Id>) {
    forall k | 0 <= k < |queue| :: queue[k] in w.table && Claimable(w.table[queue[k]], w.clock)
  }

  /** What a pass of successful publishes leaves behind. */
  ghost predicate PublishedAll(before: Work, after: Work, queue: seq<Id>) {
    && !after.threw
    && after.sends == before.sends + queue
    && after.table.Keys == before.table.Keys
    && (forall id | id in before.table && id !in queue :: after.table[id] == before.table[id])
    && (forall id | id in before.table && id in queue :: WellPublished(before.table[id], after.table[id]))
  }

  predicate WellPublished(before: Row, after: Row) {
    && after.publishedAt.Some? && after.lockedAt.None? && after.lastError.None?
    && after.attempts == before.attempts && after.deadLetteredAt == before.deadLetteredAt
    && after.createdAt == before.createdAt
  }

  lemma OneDelivered(w: Work, me: Instance, queue: seq<Id>, delay: nat)
    requires queue != [] && AllClaimable(w, queue) && Distinct(queue)
    ensures AllClaimable(PublishOne(w, me, queue[0], Delivers, delay), queue[1..])
    ensures Distinct(queue[1..]) && queue[0] !in queue[1..]
  {
  }

  lemma {:induction false} AllDelivered(
    w: Work, me: Instance, queue: seq<Id>, outcome: Id -> Outcome, delay: Id -> nat)
    requires AllClaimable(w, queue) && Distinct(queue) && !w.threw
    requires forall id :: outcome(id) == Delivers
    ensures PublishedAll(w, Pass(w, me, queue, outcome, delay), queue)
    decreases |queue|
  {
    if queue != [] {
      var next := PublishOne(w, me, queue[0], Delivers, delay(queue[0]));
      OneDelivered(w, me, queue, delay(queue[0]));
      AllDelivered(next, me, queue[1..], outcome, delay);
      PublishedFirst(w, next, Pass(next, me, queue[1..], outcome, delay), queue, w.clock + delay(queue[0]), me);
    }
  }

  lemma PublishedFirst(w: Work, next: Work, done: Work, queue: seq<Id>, later: int, me: Instance)
    requires queue != [] && queue[0] in w.table && queue[0] !in queue[1..]
    requires next.table == w.table[queue[0] := Published(Claimed(w.table[queue[0]], w.clock, me), later)]
    requires next.sends == w.sends + [queue[0]]
    requires PublishedAll(next, done, queue[1..])
    ensures PublishedAll(w, done, queue)
  {
  }

  /** A pass whose sends and writes all succeed publishes exactly the batch, oldest first, and touches nothing else. */
  lemma CleanPassPublishesTheBatch(
    w: Work, me: Instance, batch: seq<Id>, outcome: Id -> Outcome, delay: Id -> nat)
    requires IsBatch(w.table, w.clock, batch) && !w.threw
    requires forall id :: outcome(id) == Delivers
    ensures PublishedAll(w, Pass(w, me, batch, outcome, delay), batch)
    ensures |DueIds(w.table, w.clock)| <= BATCH_SIZE ==> forall id | id in DueIds(w.table, w.clock) :: id in batch
    ensures |DueIds(w.table, w.clock)| >= BATCH_SIZE ==> |batch| == BATCH_SIZE
  {
    AllDelivered(w, me, batch, outcome, delay);
    DistinctCount(batch, DueIds(w.table, w.clock));
  }

  /** Distinct members of a set: as many as the set exactly when none is missing. */
  lemma {:induction false} DistinctCount(batch: seq<Id>, all: set<Id>)
    requires Distinct(batch) && forall k | 0 <= k < |batch| :: batch[k] in all
    ensures |batch| <= |all|
    ensures |batch| == |all| <==> forall id | id in all :: id in batch
    decreases |batch|
  {
    if batch == [] {
      assert |all| == 0 <==> all == {};
      if all != {} {
        var id :| id in all;
        assert id !in batch;
      }
    } else {
      var rest := batch[1..];
      forall k | 0 <= k < |rest| ensures rest[k] in all - {batch[0]} && rest[k] == batch[k + 1] {}
      DistinctCount(rest, all - {batch[0]});
      assert forall id :: id in batch <==> id == batch[0] || id in rest;
    }
  }

  // ------------------------------------- a pass is a run of the protocol

  /** The acknowledged sends of a history, in order. */
  function Sent(h: seq<Fact>): seq<Id>
    decreases |h|
  {
    if h == [] then []
    else Sent(h[..|h| - 1]) + if h[|h| - 1].Delivered? then [h[|h| - 1].id] else []
  }

  lemma SentSnoc(h: seq<Fact>, f: Fact)
    ensures Sent(h + [f]) == Sent(h) + if f.Delivered? then [f.id] else []
  {
  }

  /** Same clock and rows; the sends of the pass are the last ones of the history, after those in `base`. */
  ghost predicate Matches(s: State, w: Work, me: Instance, queue: seq<Id>, base: seq<Id>) {
    && s.now == w.clock && s.rows == w.table
    && Sent(s.history) == base + w.sends
    && PhaseOf(s, me) == if w.threw then Resting else Walking(queue)
  }

  lemma RunTwo(s: State, a: Action, b: Action, rest: seq<Action>)
    ensures Run(s, [a, b] + rest) == Run(Apply(Apply(s, a), b), rest)
  {
  }

  lemma RunOne(s: State, a: Action)
    ensures Run(s, [a]) == Apply(s, a)
  {
  }

  lemma StepsMatch(s: State, w: Work, me: Instance, queue: seq<Id>, outcome: Outcome, delay: nat, base: seq<Id>)
    returns (actions: seq<Action>)
    requires Matches(s, w, me, queue, base) && !w.threw && queue != [] && queue[0] in w.table
    ensures forall k | 0 <= k < |actions| :: actions[k].Tick? || (!actions[k].Enqueue? && actions[k].me == me)
    ensures Matches(Run(s, actions), PublishOne(w, me, queue[0], outcome, delay), me, queue[1..], base)
  {
    var row := w.table[queue[0]];
    if outcome.ClaimFails? {
      actions := [Crash(me)];
      RunOne(s, Crash(me));
    } else if !Claimable(row, w.clock) {
      actions := [Claim(me, w.clock)];
      RunOne(s, Claim(me, w.clock));
    } else {
      actions := ClaimedSteps(s, w, me, queue, outcome, delay, base);
    }
  }

  /** Claim and read, and the time the awaits take. */
  lemma ClaimAndRead(s: State, me: Instance, delay: nat)
    requires PhaseOf(s, me).Walking? && |PhaseOf(s, me).queue| > 0
    requires var id := PhaseOf(s, me).queue[0];
      id in s.rows && Claimable(s.rows[id], s.now)
    ensures var t, queue := Run(s, [Claim(me, s.now), Read(me), Tick(delay)]), PhaseOf(s, me).queue;
      && t.now == s.now + delay && t.history == s.history
      && t.rows == s.rows[queue[0] := Claimed(s.rows[queue[0]], s.now, me)]
      && PhaseOf(t, me) == Sending(queue[0], s.now, s.rows[queue[0]].attempts, queue[1..])
  {
    RunThree(s, Claim(me, s.now), Read(me), Tick(delay));
  }

  lemma ClaimAndThrow(s: State, me: Instance)
    requires PhaseOf(s, me).Walking? && |PhaseOf(s, me).queue| > 0
    requires var id := PhaseOf(s, me).queue[0];
      id in s.rows && Claimable(s.rows[id], s.now)
    ensures var t, id := Run(s, [Claim(me, s.now), ReadThrows(me)]), PhaseOf(s, me).queue[0];
      && t.now == s.now && t.history == s.history && PhaseOf(t, me).Resting?
      && t.rows == s.rows[id := Claimed(s.rows[id], s.now, me)]
  {
    RunPair(s, Claim(me, s.now), ReadThrows(me));
  }

  lemma RunThree(s: State, a: Action, b: Action, c: Action)
    ensures Run(s, [a, b, c]) == Apply(Apply(Apply(s, a), b), c)
  {
    hide Apply;
    assert [a, b, c] == [a, b] + [c];
    RunTwo(s, a, b, [c]);
    RunOne(Apply(Apply(s, a), b), c);
  }

  lemma RunPair(s: State, a: Action, b: Action)
    ensures Run(s, [a, b]) == Apply(Apply(s, a), b)
  {
    hide Apply;
    assert [a, b] == [a] + [b];
    RunConcat(s, [a], [b]);
    RunOne(s, a);
    RunOne(Apply(s, a), b);
  }

  lemma ClaimedSteps(s: State, w: Work, me: Instance, queue: seq<Id>, outcome: Outcome, delay: nat, base: seq<Id>)
    returns (actions: seq<Action>)
    requires Matches(s, w, me, queue, base) && !w.threw && queue != [] && queue[0] in w.table
    requires Claimable(w.table[queue[0]], w.clock) && !outcome.ClaimFails?
    ensures forall k | 0 <= k < |actions| :: actions[k].Tick? || (!actions[k].Enqueue? && actions[k].me == me)
    ensures Matches(Run(s, actions), PublishOne(w, me, queue[0], outcome, delay), me, queue[1..], base)
  {
    hide Run;
    hide Apply;
    var claim := Claim(me, w.clock);
    if outcome.ReadFails? {
      actions := [claim, ReadThrows(me)];
      ClaimAndThrow(s, me);
    } else {
      var first := [claim, Read(me), Tick(delay)];
      ClaimAndRead(s, me, delay);
      var t := Run(s, first);
      var rest := SendSteps(t, me, outcome);
      actions := first + rest;
      RunConcat(s, first, rest);
    }
  }

  /** A send that is acknowledged and then marked. */
  lemma DeliverAndMark(s: State, me: Instance)
    requires PhaseOf(s, me).Sending? && PhaseOf(s, me).id in s.rows
    ensures var p, t := PhaseOf(s, me), Run(s, [Deliver(me), Mark(me)]);
      && t.now == s.now && PhaseOf(t, me) == Walking(p.queue)
      && t.rows == s.rows[p.id := Published(s.rows[p.id], s.now)]
      && Sent(t.history) == Sent(s.history) + [p.id]
  {
    SentSnoc(s.history, Delivered(PhaseOf(s, me).id, me, s.now));
    RunPair(s, Deliver(me), Mark(me));
  }

  /** The write of a failed publish, which may fail itself. */
  lemma LastWrite(s: State, me: Instance, recorded: bool)
    requires PhaseOf(s, me).Failing? && PhaseOf(s, me).id in s.rows
    ensures var p, t := PhaseOf(s, me), Apply(s, if recorded then RecordFailure(me, "error") else RecordThrows(me));
      && t.now == s.now && PhaseOf(t, me) == (if recorded then Walking(p.queue) else Resting)
      && t.rows == (if recorded then s.rows[p.id := Failed(s.rows[p.id], p.read, s.now, "error")] else s.rows)
      && Sent(t.history) == Sent(s.history)
  {
  }

  /** A send after which the publish fails: it was acknowledged and the marking failed, or it failed itself. */
  lemma SendAndFail(s: State, me: Instance, sent: bool)
    requires PhaseOf(s, me).Sending? && PhaseOf(s, me).id in s.rows
    ensures var p := PhaseOf(s, me);
      var t := if sent then Run(s, [Deliver(me), MarkThrows(me)]) else Run(s, [DeliverThrows(me)]);
      && t.now == s.now && t.rows == s.rows && PhaseOf(t, me) == Failing(p.id, p.stamp, p.read, p.queue)
      && Sent(t.history) == Sent(s.history) + if sent then [p.id] else []
  {
    SentSnoc(s.history, Delivered(PhaseOf(s, me).id, me, s.now));
    RunPair(s, Deliver(me), MarkThrows(me));
    RunOne(s, DeliverThrows(me));
  }

  /** From the send on: the last steps of a publish, whatever they do. */
  lemma SendSteps(s: State, me: Instance, outcome: Outcome) returns (actions: seq<Action>)
    requires PhaseOf(s, me).Sending? && PhaseOf(s, me).id in s.rows
    requires !outcome.ClaimFails? && !outcome.ReadFails?
    ensures forall k | 0 <= k < |actions| :: !actions[k].Tick? && !actions[k].Enqueue? && actions[k].me == me
    ensures var p, t := PhaseOf(s, me), Run(s, actions);
      && t.now == s.now
      && Sent(t.history) == Sent(s.history) + (if WasSent(outcome) then [p.id] else [])
      && PhaseOf(t, me) == (if outcome.RecordFails? then Resting else Walking(p.queue))
      && t.rows == (if outcome.RecordFails? then s.rows
                    else if outcome.Delivers? then s.rows[p.id := Published(s.rows[p.id], s.now)]
                    else s.rows[p.id := Failed(s.rows[p.id], p.read, s.now, "error")])
  {
    hide Apply;
    hide Run;
    if outcome.Delivers? {
      actions := [Deliver(me), Mark(me)];
      DeliverAndMark(s, me);
    } else {
      var last := if outcome.RecordFails? then RecordThrows(me) else RecordFailure(me, "error");
      var first := if WasSent(outcome) then [Deliver(me), MarkThrows(me)] else [DeliverThrows(me)];
      actions := first + [last];
      SendAndFail(s, me, WasSent(outcome));
      RunConcat(s, first, [last]);
      RunOne(Run(s, first), last);
      LastWrite(Run(s, first), me, !outcome.RecordFails?);
    }
  }

  /** From the scan on, candidate by candidate: the pass and the protocol stay in step. */
  lemma {:induction false} CandidatesAreARun(
    s: State, w: Work, me: Instance, queue: seq<Id>, outcome: Id -> Outcome, delay: Id -> nat, base: seq<Id>)
    returns (actions: seq<Action>)
    requires Matches(s, w, me, queue, base) && forall k | 0 <= k < |queue| :: queue[k] in w.table
    ensures forall k | 0 <= k < |actions| :: actions[k].Tick? || (!actions[k].Enqueue? && actions[k].me == me)
    ensures Matches(Run(s, actions), Pass(w, me, queue, outcome, delay), me, [], base)
    decreases |queue|
  {
    if queue == [] || w.threw {
      actions := [];
    } else {
      var next := PublishOne(w, me, queue[0], outcome(queue[0]), delay(queue[0]));
      var first := StepsMatch(s, w, me, queue, outcome(queue[0]), delay(queue[0]), base);
      var rest := CandidatesAreARun(Run(s, first), next, me, queue[1..], outcome, delay, base);
      actions := first + rest;
      RunConcat(s, first, rest);
    }
  }

  /**
   Every pass of the running code, from its scan to the end of the pass and however its awaits end, is a run of
   the protocol by that one instance, with the same batch, clock and rows and the same acknowledged sends in the
   same order; so the protocol's results cover it.
   */
  lemma PassIsARun(s: State, me: Instance, batch: seq<Id>, outcome: Id -> Outcome, delay: Id -> nat)
    returns (actions: seq<Action>)
    requires PhaseOf(s, me).Resting? && IsBatch(s.rows, s.now, batch)
    ensures actions != [] && actions[0] == Scan(me, batch)
    ensures forall k | 0 <= k < |actions| :: actions[k].Tick? || (!actions[k].Enqueue? && actions[k].me == me)
    ensures var t, done := Run(s, actions), Pass(Work(s.now, s.rows, [], false), me, batch, outcome, delay);
      && t.rows == done.table && t.now == done.clock
      && Sent(t.history) == Sent(s.history) + done.sends
      && PhaseOf(t, me).Resting?
  {
    var base, scan := Sent(s.history), Scan(me, batch);
    var w := Work(s.now, s.rows, [], false);
    var scanned := Apply(s, scan);
    assert base + [] == base;
    var rest := CandidatesAreARun(scanned, w, me, batch, outcome, delay, base);
    actions := [scan] + (rest + [EndPass(me)]);
    RunOne(s, scan);
    RunConcat(s, [scan], rest + [EndPass(me)]);
    RunSnoc(scanned, rest, EndPass(me));
  }
}
