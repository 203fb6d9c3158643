/**
 Exactly when the cap on plus-ones fails: whether calls to createPlusOne can
 still push a parent's direct children past the total it was granted.
 */
module Overfull {
  import opened Prelude
  import opened Store
  import opened Forest
  import opened Operations
  import opened System
  import opened Invariants
  import opened Ledger
  import opened PlusOnes

  predicate OnlyCreates(steps: seq<Step>) {
    forall k | 0 <= k < |steps| :: steps[k].CreatePlusOneStep?
  }

  /** Some calls to createPlusOne leave `p` with more than `granted` direct children. */
  ghost predicate CanExceed(s: State, p: Id, granted: int) {
    exists steps :: Exceeds(s, steps, p, granted)
  }

  ghost predicate Exceeds(s: State, steps: seq<Step>, p: Id, granted: int) {
    OnlyCreates(steps) && |Children(Run(s, steps).rows, p)| > granted
  }

  // ------------------------------------------------------------ never beyond

  lemma CreateKeepsRoom(s: State, step: Step, p: Id)
    requires StoreInv(s) && p in s.rows && s.rows[p].maxInvitees >= 0 && step.CreatePlusOneStep?
    ensures var t := Apply(s, step);
      p in t.rows && t.rows[p].maxInvitees >= 0 && Total(t.rows, p) == Total(s.rows, p)
  {
    hide Sound;
    hide CreatePlusOne;
    hide Total;
    GuestStepTotal(s, step, p);
    IdIsOld(s, p);
    if CreatePlusOneRefusal(s, step.plusOne).None? {
      IdIsOld(s, step.plusOne.parent.value);
      CreatedPlusOne(s, step.plusOne);
    } else {
      RefusedCreate(s, step.plusOne);
    }
  }

  lemma RefusedCreate(s: State, call: PlusOneCall)
    requires CreatePlusOneRefusal(s, call).Some?
    ensures CreatePlusOne(s, call).state == s
  {
  }

  /** Calls to createPlusOne alone never take the children past capacity plus children. */
  lemma {:induction false} CreatesStayWithin(s: State, steps: seq<Step>, p: Id)
    requires StoreInv(s) && p in s.rows && s.rows[p].maxInvitees >= 0 && OnlyCreates(steps)
    ensures |Children(Run(s, steps).rows, p)| <= Total(s.rows, p)
    decreases |steps|
  {
    if steps != [] {
      hide Apply;
      CreateKeepsRoom(s, steps[0], p);
      StoreStep(s, steps[0]);
      CreatesStayWithin(Apply(s, steps[0]), steps[1..], p);
    }
  }

  // ------------------------------------------------------------ up to the total

  /** A plus-one that staff of the parent's event may always create. */
  function StaffCall(r: Row, p: Id): PlusOneCall {
    PlusOneCall(Some(r.event), Some(p), PlusOne("Ada", "Lovelace", true), true, [], Actor(Some(0), {r.event}), "en-US")
  }

  lemma StaffMayCreate(s: State, p: Id)
    requires p in s.rows && s.rows[p].maxInvitees > 0
    ensures CreatePlusOneRefusal(s, StaffCall(s.rows[p], p)).None?
  {
  }

  lemma FillOne(s: State, p: Id)
    requires StoreInv(s) && p in s.rows && s.rows[p].maxInvitees > 0
    ensures var t := Apply(s, CreatePlusOneStep(StaffCall(s.rows[p], p)));
      && StoreInv(t) && p in t.rows && t.rows[p].maxInvitees == s.rows[p].maxInvitees - 1
      && Total(t.rows, p) == Total(s.rows, p)
  {
    hide Sound;
    hide Total;
    hide CreatePlusOne;
    hide CreatePlusOneRefusal;
    StaffMayCreate(s, p);
    CreateSpendsAPlace(s, StaffCall(s.rows[p], p));
    StoreStep(s, CreatePlusOneStep(StaffCall(s.rows[p], p)));
  }

  /** Every place that is left can be filled. */
  lemma {:induction false} Fill(s: State, p: Id) returns (steps: seq<Step>)
    requires StoreInv(s) && p in s.rows && s.rows[p].maxInvitees >= 0
    ensures OnlyCreates(steps)
    ensures |Children(Run(s, steps).rows, p)| == Total(s.rows, p)
    decreases s.rows[p].maxInvitees
  {
    hide Sound;
    hide Apply;
    steps := [];
    if s.rows[p].maxInvitees > 0 {
      var step := CreatePlusOneStep(StaffCall(s.rows[p], p));
      FillOne(s, p);
      var more := Fill(Apply(s, step), p);
      steps := [step] + more;
      assert steps[1..] == more;
    }
  }

  lemma ExceedsExactlyBeyondTotal(s: State, p: Id, granted: int)
    requires StoreInv(s) && p in s.rows && s.rows[p].maxInvitees >= 0
    ensures CanExceed(s, p, granted) <==> Total(s.rows, p) > granted
  {
    hide Run;
    hide Total;
    if Total(s.rows, p) > granted {
      var steps := Fill(s, p);
      assert Exceeds(s, steps, p, granted);
    } else {
      forall steps ensures !Exceeds(s, steps, p, granted) {
        if OnlyCreates(steps) {
          CreatesStayWithin(s, steps, p);
        }
      }
    }
  }

  // ------------------------------------------------------------ the condition

  /** Children of `p` given without a slot, and children taken without giving theirs back, over a run. */
  ghost function Given(s: State, steps: seq<Step>, p: Id): nat
    decreases |steps|
  {
    if steps == [] then 0 else Gifts(s, steps[0], p) + Given(Apply(s, steps[0]), steps[1..], p)
  }

  ghost function Lost(s: State, steps: seq<Step>, p: Id): nat
    decreases |steps|
  {
    if steps == [] then 0 else Losses(s, steps[0], p) + Lost(Apply(s, steps[0]), steps[1..], p)
  }

  lemma {:induction false} BalanceWithoutLimit(s: State, steps: seq<Step>, p: Id, balance: int)
    requires forall k | 0 <= k < |steps| && steps[k].LimitStep? :: steps[k].id != p
    ensures Balance(s, steps, p, balance) == balance + Given(s, steps, p) - Lost(s, steps, p)
    decreases |steps|
  {
    if steps != [] {
      hide Apply;
      hide Gifts;
      hide Losses;
      BalanceWithoutLimit(Apply(s, steps[0]), steps[1..], p, Due(s, steps[0], p, balance));
    }
  }

  /**
   A parent whose capacity and children make up the `granted` total goes through any run that does not change its
   limit. After it, plus-ones can be created beyond the grant if and only if more children were given without a slot
   than were taken without giving one back.
   */
  lemma OverfullExactlyByGifts(s: State, steps: seq<Step>, p: Id, granted: int)
    requires StoreInv(s) && p in s.rows && Total(s.rows, p) == granted
    requires forall k | 0 <= k < |steps| && steps[k].LimitStep? :: steps[k].id != p
    requires p in Run(s, steps).rows && Run(s, steps).rows[p].maxInvitees >= 0
    ensures CanExceed(Run(s, steps), p, granted) <==> Given(s, steps, p) > Lost(s, steps, p)
  {
    hide Run;
    hide Total;
    hide Sound;
    StoreRun(s, steps);
    PlusOneLedger(s, steps, p);
    BalanceWithoutLimit(s, steps, p, granted);
    ExceedsExactlyBeyondTotal(Run(s, steps), p, granted);
  }

  /**
   The guard a caller can check: one call that neither sets the limit nor is an administrative delete breaks the cap
   for good if and only if it is about to give the parent a child without a slot, that is a reply with plus-ones the
   row has places for, or a creation or import that names it as parent.
   */
  lemma OneCallBreaksTheCap(s: State, step: Step, p: Id)
    requires StoreInv(s) && p in s.rows && !IsAdminDelete(step) && !(step.LimitStep? && step.id == p)
    requires p in Apply(s, step).rows && Apply(s, step).rows[p].maxInvitees >= 0
    ensures CanExceed(Apply(s, step), p, Total(s.rows, p)) <==> Gifts(s, step, p) > 0
  {
    hide Apply;
    hide Total;
    hide Sound;
    hide Gifts;
    StoreStep(s, step);
    LedgerStep(s, step, p);
    NothingLost(s, step, p);
    ExceedsExactlyBeyondTotal(Apply(s, step), p, Total(s.rows, p));
  }
}
