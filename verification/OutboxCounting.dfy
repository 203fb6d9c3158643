/**
 When the attempt count is exact, with no timing assumption at all: until some
 publish records a failure on a count that is no longer the row's, and never again after.
 */
module OutboxCounting {
  import opened OutboxRow
  import opened OutboxProtocol

  /** Rows are never removed, so whatever is held or was recorded has its row. */
  ghost predicate Known(s: State) {
    && (forall i | i in s.phases && s.phases[i].Holds() :: s.phases[i].id in s.rows)
    && (forall k | 0 <= k < |s.history| :: s.history[k].id in s.rows)
  }

  lemma KnownStep(s: State, a: Action)
    requires Known(s)
    ensures Known(Apply(s, a)) && s.rows.Keys <= Apply(s, a).rows.Keys
  {
  }

  /** Exactly as many attempts as recorded failures. */
  ghost predicate Exact(s: State, id: Id) {
    id in s.rows ==> s.rows[id].attempts == Failures(s.history, id)
  }

  ghost predicate AllExact(s: State) {
    forall id | id in s.rows :: Exact(s, id)
  }

  /** A failure write for `id` on a count read before another failure was recorded. */
  ghost predicate StaleFailure(s: State, a: Action, id: Id) {
    && a.RecordFailure? && Enabled(s, a)
    && PhaseOf(s, a.me).id == id && PhaseOf(s, a.me).read != s.rows[id].attempts
  }

  /** A failure is missing from the row, and no live publish has read a count that would make up for it. */
  ghost predicate Short(s: State, id: Id) {
    && id in s.rows && s.rows[id].attempts < Failures(s.history, id)
    && forall i | i in s.phases && s.phases[i].HasRead() && s.phases[i].id == id ::
         s.phases[i].read < Failures(s.history, id)
  }

  lemma HistoryOf(s: State, a: Action, id: Id)
    ensures Failures(Apply(s, a).history, id)
         == Failures(s.history, id)
            + if a.RecordFailure? && Enabled(s, a) && PhaseOf(s, a.me).id == id then 1 else 0
  {
    if Enabled(s, a) && a.RecordFailure? {
      FailuresStep(s.history, FailureRecorded(PhaseOf(s, a.me).id, a.me, s.now), id);
    } else if Enabled(s, a) && a.Deliver? {
      FailuresStep(s.history, Delivered(PhaseOf(s, a.me).id, a.me, s.now), id);
    }
  }

  /** The one step after which an exact count is exact no more. */
  lemma ExactStep(s: State, a: Action, id: Id)
    requires AlwaysInv(s) && Known(s) && Exact(s, id)
    ensures Exact(Apply(s, a), id) <==> !StaleFailure(s, a, id)
    ensures StaleFailure(s, a, id) ==> Short(Apply(s, a), id)
  {
    HistoryOf(s, a, id);
    if a.Enqueue? && Enabled(s, a) && a.row == id {
      NoFailuresYet(s.history, id);
    }
    if StaleFailure(s, a, id) {
      var t := Apply(s, a);
      forall i | i in t.phases && t.phases[i].HasRead() && t.phases[i].id == id
        ensures t.phases[i].read < Failures(t.history, id)
      {
        assert PhaseAlways(s.history, s.phases[i]);
      }
    }
  }

  /** A step keeps every count exact if and only if it is not a failure write on a count that has moved on. */
  lemma CountsStayExact(s: State, a: Action)
    requires AlwaysInv(s) && Known(s) && AllExact(s)
    ensures AllExact(Apply(s, a)) <==> forall id | id in s.rows :: !StaleFailure(s, a, id)
  {
    forall id | id in Apply(s, a).rows ensures Exact(Apply(s, a), id) <==> !StaleFailure(s, a, id) {
      ExactStep(s, a, id);
    }
    KnownStep(s, a);
  }

  /** What is short stays short: later failures move row and history alike, or the history alone. */
  lemma ShortStep(s: State, a: Action, id: Id)
    requires Known(s) && Short(s, id)
    ensures Short(Apply(s, a), id)
  {
    HistoryOf(s, a, id);
  }

  lemma {:induction false} ShortRun(s: State, actions: seq<Action>, id: Id)
    requires Known(s) && Short(s, id)
    ensures Short(Run(s, actions), id)
    decreases |actions|
  {
    if actions != [] {
      KnownStep(s, actions[0]);
      ShortStep(s, actions[0], id);
      ShortRun(Apply(s, actions[0]), actions[1..], id);
    }
  }

  /** Somewhere in the run a failure of `id` is recorded on a stale count. */
  ghost predicate LosesFailure(s: State, actions: seq<Action>, id: Id)
    decreases |actions|
  {
    actions != [] && (StaleFailure(s, actions[0], id) || LosesFailure(Apply(s, actions[0]), actions[1..], id))
  }

  lemma {:induction false} ExactRun(s: State, actions: seq<Action>, id: Id)
    requires AlwaysInv(s) && Known(s) && Exact(s, id)
    ensures Exact(Run(s, actions), id) <==> !LosesFailure(s, actions, id)
    decreases |actions|
  {
    if actions != [] {
      var t := Apply(s, actions[0]);
      AlwaysStep(s, actions[0]);
      KnownStep(s, actions[0]);
      ExactStep(s, actions[0], id);
      if StaleFailure(s, actions[0], id) {
        ShortRun(t, actions[1..], id);
      } else {
        ExactRun(t, actions[1..], id);
      }
    }
  }

  /**
   Any number of instances, any timing: at the end of a run the attempt count of a record is the number of its
   recorded failures if and only if none of them was written on a count another publish had overtaken.
   */
  lemma ExactUnlessOvertaken(now: int, actions: seq<Action>, id: Id)
    ensures Exact(Run(Initial(now), actions), id) <==> !LosesFailure(Initial(now), actions, id)
  {
    ExactRun(Initial(now), actions, id);
  }
}
