/**
 The plus-one ledger of a parent invitation: remaining capacity plus direct
 children.  Taking or returning a slot moves one unit; a reply, and a creation
 that names a parent, add children without taking a slot.
 */
module Ledger {
  import opened Prelude
  import opened Store
  import opened Forest
  import opened Confirmation
  import opened Operations
  import opened Imports
  import opened System
  import opened Invariants
  import opened Evolution

  function Total(rows: Rows, p: Id): int
    requires p in rows
  {
    rows[p].maxInvitees + |Children(rows, p)|
  }

  /** Children of `p` that a call adds without lowering `maxInvitees`. */
  ghost function Gifts(s: State, step: Step, p: Id): nat {
    match step
    case ReplyStep(call) =>
      if call.id == p && ReplyRefusal(s, call).None? then |AllowedPlusOnes(s.rows[p], call)| else 0
    case CreateCall(event, rec) =>
      if rec.parent == Some(p) && Create(s, event, rec).outcome.Done? then 1 else 0
    case ImportCall(records) => if ParentsExist(s, records) then |ImportedUnder(s, records, p)| else 0
    case _ => 0
  }

  function ImportedUnder(s: State, records: seq<Record>, p: Id): set<Id> {
    set id | id in NewIds(s.nextId, |records|) && RowFor(RecordRows(records), s.nextId, id).parent == Some(p)
  }

  /** The calls that delete without looking at capacity at all. */
  predicate IsAdminDelete(step: Step) {
    step.DeleteStep? || step.DeleteManyStep? || step.DeleteGuestStep? || step.DeleteEventsStep?
  }

  /** The rows such a call names, if it goes through. */
  ghost function Named(s: State, step: Step): set<Id> {
    match step
    case DeleteStep(id, active) => if DeleteOne(s, id, active).outcome.Done? then {id} else {}
    case DeleteManyStep(list, active) => if DeleteMany(s, list, active).outcome.Done? then AsSet(list) else {}
    case DeleteGuestStep(user) => IdsOfGuest(s.rows, user)
    case DeleteEventsStep(events) => IdsOfEvents(s.rows, events)
    case _ => {}
  }

  /** Children of `p` that such a call deletes without giving their slots back. */
  ghost function Losses(s: State, step: Step, p: Id): nat {
    |Children(s.rows, p) * Named(s, step)|
  }

  /** What the total of `p` must be after the call: the limit just granted, or the old total with gifts and losses. */
  ghost function Due(s: State, step: Step, p: Id, balance: int): int {
    if step.LimitStep? && step.id == p && UpdateLimit(s, p, step.total, step.active).outcome.Done? then step.total
    else balance + Gifts(s, step, p) - Losses(s, step, p)
  }

  // ------------------------------------------------------------ small writes

  lemma PutTotal(rows: Rows, id: Id, r: Row, p: Id)
    requires id in rows && p in rows && r.parent == rows[id].parent
    ensures Children(rows[id := r], p) == Children(rows, p)
    ensures Total(rows[id := r], p) == Total(rows, p) + if p == id then r.maxInvitees - rows[p].maxInvitees else 0
  {
  }

  lemma GrowTotal(rows: Rows, later: Rows, p: Id, added: set<Id>)
    requires p in rows && p in later && later[p].maxInvitees == rows[p].maxInvitees
    requires forall id :: id in Children(later, p) <==> id in Children(rows, p) || id in added
    requires added !! Children(rows, p)
    ensures Total(later, p) == Total(rows, p) + |added|
  {
    assert Children(later, p) == Children(rows, p) + added;
  }

  /** No call but the ones below changes who is a child of whom or any capacity. */
  lemma SameTotal(rows: Rows, later: Rows, p: Id)
    requires p in rows && later.Keys == rows.Keys
    requires forall id | id in rows :: later[id].parent == rows[id].parent
    requires later[p].maxInvitees == rows[p].maxInvitees
    ensures Total(later, p) == Total(rows, p)
  {
    assert Children(later, p) == Children(rows, p);
  }

  // ------------------------------------------------------ confirmation calls

  /** Rows keep their parents and capacities. */
  ghost predicate SameShape(rows: Rows, later: Rows) {
    && later.Keys == rows.Keys
    && forall id | id in rows ::
         later[id].parent == rows[id].parent && later[id].maxInvitees == rows[id].maxInvitees
  }

  lemma SendShape(s: State, id: Id, seat: Option<Seat>, locale: Option<string>)
    ensures SameShape(s.rows, SendOrReserve(s, id, seat, locale).rows)
  {
  }

  lemma ResendShape(s: State, id: Id, locale: Option<string>)
    ensures SameShape(s.rows, Resend(s, id, locale).rows)
  {
  }

  lemma ApproveShape(s: State, a: Approval)
    ensures SameShape(s.rows, Approve(s, a).state.rows)
  {
    if ApprovalRefusal(s, a).None? && a.approve {
      AcceptShape(s, a);
    }
  }

  lemma PutShape(rows: Rows, id: Id, r: Row)
    requires id in rows && r.parent == rows[id].parent && r.maxInvitees == rows[id].maxInvitees
    ensures SameShape(rows, rows[id := r])
  {
  }

  lemma ShapeTrans(a: Rows, b: Rows, c: Rows)
    requires SameShape(a, b) && SameShape(b, c)
    ensures SameShape(a, c)
  {
  }

  lemma ShapeSelf(rows: Rows)
    ensures SameShape(rows, rows)
  {
  }

  lemma AcceptShape(s: State, a: Approval)
    requires a.id in s.rows
    ensures SameShape(s.rows, Accept(s, a).state.rows)
  {
    hide SendOrReserve;
    hide SameShape;
    var marked := MarkApproved(s, a);
    PutShape(s.rows, a.id, s.rows[a.id].(status := APPROVED, approvedBy := a.actor));
    SendShape(marked, a.id, a.seat, a.locale);
    ShapeTrans(s.rows, marked.rows, SendOrReserve(marked, a.id, a.seat, a.locale).rows);
  }

  lemma MessageShape(s: State, step: Step)
    requires step.ResendStep? || step.RemindStep? || step.TicketStep? || step.ReservedStep?
    ensures SameShape(s.rows, Apply(s, step).rows)
  {
    hide Resend;
    hide SendFirst;
    match step {
      case ResendStep(id, locale) => ResendShape(s, id, locale);
      case RemindStep(id, _) => ResendShape(s, id, None);
      case TicketStep(job) => SendShape(s, job.id, job.seat, job.locale);
      case ReservedStep(id, seat) => SendShape(Emit(s, SeatReserved(id, seat)), id, Some(seat), None);
    }
  }

  lemma WriteShape(s: State, step: Step)
    requires step.UpdatePlusOneStep? || step.LinkStep?
    ensures SameShape(s.rows, Apply(s, step).rows)
  {
    hide SameShape;
    ShapeSelf(s.rows);
    if step.id in s.rows {
      var r := s.rows[step.id];
      if step.LinkStep? {
        PutShape(s.rows, step.id, r.(guest := Some(step.user)));
      } else {
        PutShape(s.rows, step.id, r.(firstName := step.person.firstName, lastName := step.person.lastName));
      }
    }
  }

  lemma StageShape(rows: Rows, ids: set<Id>, staged: bool)
    ensures SameShape(rows, StageCommit(rows, ids, staged))
  {
  }

  // ------------------------------------------------------------------ gifts

  lemma InsertChildrenTotal(s: State, rs: seq<Row>, parent: Id, p: Id)
    requires IsForest(s.rows, s.nextId) && p in s.rows && parent in s.rows
    requires forall i | 0 <= i < |rs| :: rs[i].parent == Some(parent)
    ensures var t := InsertAll(s, rs).rows;
      && p in t && parent in t && t[parent] == s.rows[parent]
      && Total(t, p) == Total(s.rows, p) + if parent == p then |rs| else 0
  {
    forall id | id in NewIds(s.nextId, |rs|) ensures RowFor(rs, s.nextId, id).parent == Some(parent) {
      assert RowFor(rs, s.nextId, id) == rs[id - s.nextId];
    }
    GrowTotal(s.rows, InsertAll(s, rs).rows, p, if parent == p then NewIds(s.nextId, |rs|) else {});
  }

  /** A reply writes its own row, inserts the children, and writes its own row again. */
  lemma ReplyWrites(s: State, call: ReplyCall)
    requires IsForest(s.rows, s.nextId) && call.id in s.rows
    ensures var t, r := ReplyCommit(s, call), s.rows[call.id];
      var rs := AcceptedChildren(PRIVATE, r.event, call.id, AllowedPlusOnes(r, call), s.now);
      && call.id in t.rows
      && t.rows == InsertAll(s, rs).rows[call.id := t.rows[call.id]]
      && t.rows[call.id].parent == r.parent && t.rows[call.id].maxInvitees == r.maxInvitees
  {
    hide AllowedPlusOnes;
    hide AcceptedChildren;
    hide ReplyStatus;
    hide Or;
    hide IdsFrom;
    var r, replied := s.rows[call.id], RepliedRow(s, call);
    var rs := AcceptedChildren(PRIVATE, r.event, call.id, AllowedPlusOnes(r, call), s.now);
    PutThenInsert(s, call.id, replied, rs);
  }

  lemma PutThenInsert(s: State, id: Id, r: Row, rs: seq<Row>)
    requires IsForest(s.rows, s.nextId) && id in s.rows
    ensures InsertAll(Put(s, id, r), rs).rows == InsertAll(s, rs).rows[id := r]
  {
  }

  lemma ReplyTotal(s: State, call: ReplyCall, p: Id)
    requires IsForest(s.rows, s.nextId) && p in s.rows && ReplyRefusal(s, call).None?
    ensures p in ReplyCommit(s, call).rows
    ensures Total(ReplyCommit(s, call).rows, p) == Total(s.rows, p) + Gifts(s, ReplyStep(call), p)
  {
    hide ReplyCommit;
    hide InsertAll;
    hide Total;
    hide AllowedPlusOnes;
    var r := s.rows[call.id];
    var rs := AcceptedChildren(PRIVATE, r.event, call.id, AllowedPlusOnes(r, call), s.now);
    AcceptedChildrenOk(PRIVATE, r.event, call.id, AllowedPlusOnes(r, call), s.now);
    InsertChildrenTotal(s, rs, call.id, p);
    ReplyWrites(s, call);
    PutTotal(InsertAll(s, rs).rows, call.id, ReplyCommit(s, call).rows[call.id], p);
  }

  lemma CreateTotal(s: State, r: Row, p: Id)
    requires IsForest(s.rows, s.nextId) && p in s.rows
    ensures p in Insert(s, r).rows
    ensures Total(Insert(s, r).rows, p) == Total(s.rows, p) + if r.parent == Some(p) then 1 else 0
  {
    var added := if r.parent == Some(p) then {s.nextId} else {};
    GrowTotal(s.rows, Insert(s, r).rows, p, added);
  }

  lemma ImportTotal(s: State, records: seq<Record>, p: Id)
    requires IsForest(s.rows, s.nextId) && p in s.rows
    ensures var t := InsertAll(s, RecordRows(records));
      p in t.rows && Total(t.rows, p) == Total(s.rows, p) + |ImportedUnder(s, records, p)|
  {
    var t := InsertAll(s, RecordRows(records));
    GrowTotal(s.rows, t.rows, p, ImportedUnder(s, records, p));
  }

  lemma FileTotal(s: State, event: EventId, actor: UserId, kept: seq<Line>, p: Id)
    requires IsForest(s.rows, s.nextId) && p in s.rows
    ensures var t := Imported(s, event, actor, kept);
      p in t.rows && Total(t.rows, p) == Total(s.rows, p)
  {
    var t, rs := Imported(s, event, actor, kept), LineRows(event, actor, kept);
    forall id | id in NewIds(s.nextId, |rs|) ensures RowFor(rs, s.nextId, id).parent.None? {
      assert RowFor(rs, s.nextId, id) == LineRow(event, actor, kept[id - s.nextId]);
    }
    GrowTotal(s.rows, t.rows, p, {});
  }

  lemma PublicTotal(s: State, call: PublicCall, p: Id)
    requires IsForest(s.rows, s.nextId) && p in s.rows
    ensures p in PublicCommit(s, call).rows
    ensures Total(PublicCommit(s, call).rows, p) == Total(s.rows, p)
  {
    hide InsertAll;
    hide Total;
    var row := PublicRow(s, call);
    var children := AcceptedChildren(PUBLIC, call.event, s.nextId, call.plusOnes, s.now);
    var a := Insert(s, row);
    CreateTotal(s, row, p);
    AcceptedChildrenOk(PUBLIC, call.event, s.nextId, call.plusOnes, s.now);
    InsertChildrenTotal(a, children, s.nextId, p);
    PutTotal(InsertAll(a, children).rows, s.nextId, PublicCommit(s, call).rows[s.nextId], p);
  }

  // ------------------------------------------------------------------ slots

  lemma CreatePlusOneTotal(s: State, call: PlusOneCall, p: Id)
    requires IsForest(s.rows, s.nextId) && p in s.rows && CreatePlusOneRefusal(s, call).None?
    ensures p in CreatePlusOneCommit(s, call).rows
    ensures Total(CreatePlusOneCommit(s, call).rows, p) == Total(s.rows, p)
  {
    var parent := call.parent.value;
    var taken := TakeSlots(s, parent, 1);
    PutTotal(s.rows, parent, taken.rows[parent], p);
    CreateTotal(taken, PlusOneRow(s, call), p);
    var created := Insert(taken, PlusOneRow(s, call));
    SameTotal(created.rows, CreatePlusOneCommit(s, call).rows, p);
  }

  /** What a cascade of some children of `parent` takes from the children of a survivor `p`. */
  lemma CascadeChildren(rows: Rows, nextId: Id, parent: Id, kids: set<Id>, p: Id)
    requires IsForest(rows, nextId) && kids <= Children(rows, parent) && p in Cascade(rows, kids)
    ensures Children(Cascade(rows, kids), p) == if p == parent then Children(rows, p) - kids else Children(rows, p)
  {
  }

  lemma RemoveTotal(rows: Rows, nextId: Id, parent: Id, kids: set<Id>, p: Id)
    requires IsForest(rows, nextId) && kids <= Children(rows, parent) && parent in rows
    requires p in Cascade(rows, kids)
    ensures var left := Cascade(rows, kids);
      && parent in left
      && Total(left[parent := left[parent].(maxInvitees := left[parent].maxInvitees + |kids|)], p) == Total(rows, p)
  {
    var left := Cascade(rows, kids);
    CascadeChildren(rows, nextId, parent, kids, p);
    ParentNotUnderChildren(rows, nextId, parent, kids);
    PutTotal(left, parent, left[parent].(maxInvitees := left[parent].maxInvitees + |kids|), p);
  }

  lemma DeletePlusOneTotal(s: State, id: Id, p: Id)
    requires IsForest(s.rows, s.nextId) && p in s.rows && id in s.rows && s.rows[id].parent.Some?
    requires p in DeletePlusOneCommit(s, id).rows
    ensures Total(DeletePlusOneCommit(s, id).rows, p) == Total(s.rows, p)
  {
    var parent := s.rows[id].parent.value;
    ParentNotUnderChildren(s.rows, s.nextId, parent, {id});
    RemoveTotal(s.rows, s.nextId, parent, {id}, p);
  }

  lemma DeleteAllTotal(s: State, parent: Id, guests: multiset<UserId>, p: Id)
    requires IsForest(s.rows, s.nextId) && p in s.rows && parent in s.rows
    requires p in DeleteAllCommit(s, parent, guests).rows
    ensures Total(DeleteAllCommit(s, parent, guests).rows, p) == Total(s.rows, p)
  {
    var kids := RemovableChildren(s.rows, parent);
    ParentNotUnderChildren(s.rows, s.nextId, parent, kids);
    RemoveTotal(s.rows, s.nextId, parent, kids, p);
  }

  // --------------------------------------------------------------- the step

  lemma ApprovedTotal(s: State, a: Approval, p: Id)
    requires p in s.rows
    ensures p in Approve(s, a).state.rows
    ensures Total(Approve(s, a).state.rows, p) == Total(s.rows, p)
  {
    hide Approve;
    ApproveShape(s, a);
    SameTotal(s.rows, Approve(s, a).state.rows, p);
  }

  lemma ReplyStepTotal(s: State, call: ReplyCall, p: Id)
    requires StoreInv(s) && p in s.rows
    ensures p in Reply(s, call).state.rows
    ensures Total(Reply(s, call).state.rows, p) == Total(s.rows, p) + Gifts(s, ReplyStep(call), p)
  {
    hide Approve;
    hide ReplyCommit;
    hide Total;
    if ReplyRefusal(s, call).None? {
      var r, replied := s.rows[call.id], ReplyCommit(s, call);
      ReplyTotal(s, call, p);
      if ReplyAutoApproves(s, call) && r.inviter.Some? {
        ApprovedTotal(replied, AutoApproval(call.id, r.event, r.inviter.value, call.grantSucceeds), p);
      }
    }
  }

  lemma GuestStepTotal(s: State, step: Step, p: Id)
    requires StoreInv(s) && p in s.rows
    requires step.ReplyStep? || step.PublicStep? || step.CreatePlusOneStep?
    ensures p in Apply(s, step).rows
    ensures Total(Apply(s, step).rows, p) == Total(s.rows, p) + Gifts(s, step, p)
  {
    hide Approve;
    hide Reply;
    hide PublicCommit;
    hide CreatePlusOneCommit;
    hide Total;
    match step {
      case ReplyStep(call) => ReplyStepTotal(s, call, p);
      case PublicStep(call) =>
        if PublicRefusal(call).None? {
          PublicTotal(s, call, p);
          ApprovedTotal(PublicCommit(s, call), AutoApproval(s.nextId, call.event, SYSTEM_ACTOR, true), p);
        }
      case CreatePlusOneStep(call) =>
        if CreatePlusOneRefusal(s, call).None? {
          CreatePlusOneTotal(s, call, p);
          ApprovedTotal(CreatePlusOneCommit(s, call),
            AutoApproval(s.nextId, call.event.value, call.actor.user.value, true), p);
        }
    }
  }

  lemma LimitTotal(s: State, id: Id, total: int, active: Option<EventId>, p: Id)
    requires p in s.rows
    ensures p in UpdateLimit(s, id, total, active).state.rows
    ensures Total(UpdateLimit(s, id, total, active).state.rows, p)
         == if id == p && UpdateLimit(s, id, total, active).outcome.Done? then total else Total(s.rows, p)
  {
    if UpdateLimit(s, id, total, active).outcome.Done? {
      PutTotal(s.rows, id, s.rows[id].(maxInvitees := total - |Children(s.rows, id)|), p);
    }
  }

  lemma CreationTotal(s: State, step: Step, p: Id)
    requires StoreInv(s) && p in s.rows && (step.CreateCall? || step.ImportCall? || step.FileStep?)
    ensures p in Apply(s, step).rows
    ensures Total(Apply(s, step).rows, p) == Total(s.rows, p) + Gifts(s, step, p)
  {
    hide Total;
    match step {
      case CreateCall(event, rec) =>
        if Create(s, event, rec).outcome.Done? {
          CreateTotal(s, CreatedRow(s, event.value, rec), p);
        }
      case ImportCall(records) =>
        if ParentsExist(s, records) {
          ImportTotal(s, records, p);
        }
      case FileStep(event, actor, lines) =>
        hide Imported;
        hide KeysOf;
        FileTotal(s, event, actor, Kept(KeysOf(s.rows, event), lines), p);
    }
  }

  lemma RemovalTotal(s: State, step: Step, p: Id)
    requires StoreInv(s) && p in s.rows && (step.DeletePlusOneStep? || step.DeleteAllStep?)
    requires p in Apply(s, step).rows
    ensures Total(Apply(s, step).rows, p) == Total(s.rows, p)
  {
    hide Total;
    match step {
      case DeletePlusOneStep(id, actor) =>
        if ManageRefusal(s, id, actor).None? {
          DeletePlusOneTotal(s, id, p);
        }
      case DeleteAllStep(id, actor, order) =>
        if id in s.rows && Lists(order, RemovableChildren(s.rows, id)) && DeleteAllRefusal(s, id, actor).None? {
          DeleteAllTotal(s, id, GuestsOf(s.rows, order), p);
        }
    }
  }

  /** A survivor loses exactly the children that were named. */
  lemma SurvivorsChildren(rows: Rows, roots: set<Id>, p: Id)
    requires p in Cascade(rows, roots) && (forall id | id in rows && rows[id].parent == Some(p) :: p < id)
    ensures Children(Cascade(rows, roots), p) == Children(rows, p) - roots
  {
    forall c | c in Children(rows, p) ensures Under(rows, c, roots) <==> c in roots {
      assert !Under(rows, p, roots);
    }
  }

  lemma CascadeTotal(rows: Rows, nextId: Id, roots: set<Id>, p: Id)
    requires IsForest(rows, nextId) && p in Cascade(rows, roots)
    ensures Total(Cascade(rows, roots), p) == Total(rows, p) - |Children(rows, p) * roots|
  {
    SurvivorsChildren(rows, roots, p);
    var kids := Children(rows, p);
    assert kids == (kids - roots) + (kids * roots);
  }

  lemma AdminDeletes(s: State, step: Step)
    requires IsAdminDelete(step)
    ensures Apply(s, step).rows == Cascade(s.rows, Named(s, step))
  {
    NothingUnderNothing(s.rows);
    match step {
      case DeleteManyStep(list, active) =>
        if DeleteEach(s.rows, list, active).Some? {
          DeleteEachIsACascade(s.rows, list, active);
        }
      case _ =>
    }
  }

  lemma AdminTotal(s: State, step: Step, p: Id)
    requires StoreInv(s) && p in s.rows && IsAdminDelete(step) && p in Apply(s, step).rows
    ensures Total(Apply(s, step).rows, p) == Total(s.rows, p) - Losses(s, step, p)
  {
    hide Apply;
    hide Total;
    hide Named;
    AdminDeletes(s, step);
    CascadeTotal(s.rows, s.nextId, Named(s, step), p);
  }

  lemma LimitStepTotal(s: State, step: Step, p: Id)
    requires p in s.rows && step.LimitStep?
    ensures p in Apply(s, step).rows && Total(Apply(s, step).rows, p) == Due(s, step, p, Total(s.rows, p))
  {
    hide Total;
    hide UpdateLimit;
    LimitTotal(s, step.id, step.total, step.active, p);
  }

  lemma NothingLost(s: State, step: Step, p: Id)
    requires !IsAdminDelete(step)
    ensures Losses(s, step, p) == 0
  {
    assert Children(s.rows, p) * {} == {};
  }

  lemma NothingGiven(s: State, step: Step, p: Id)
    requires !step.ReplyStep? && !step.CreateCall? && !step.ImportCall?
    ensures Gifts(s, step, p) == 0
  {
  }

  /** One call moves the total of a surviving parent exactly as `Due` says. */
  lemma LedgerStep(s: State, step: Step, p: Id)
    requires StoreInv(s) && p in s.rows && p in Apply(s, step).rows
    ensures Total(Apply(s, step).rows, p) == Due(s, step, p, Total(s.rows, p))
  {
    hide Apply;
    hide Total;
    hide Sound;
    hide Gifts;
    hide Losses;
    if step.LimitStep? {
      LimitStepTotal(s, step, p);
    } else if IsAdminDelete(step) {
      NothingGiven(s, step, p);
      AdminTotal(s, step, p);
    } else {
      NothingLost(s, step, p);
      OtherTotal(s, step, p);
    }
  }

  lemma OtherTotal(s: State, step: Step, p: Id)
    requires StoreInv(s) && p in s.rows && p in Apply(s, step).rows && !step.LimitStep? && !IsAdminDelete(step)
    ensures Total(Apply(s, step).rows, p) == Total(s.rows, p) + Gifts(s, step, p)
  {
    hide Apply;
    hide Total;
    hide Sound;
    hide Gifts;
    if step.ReplyStep? || step.PublicStep? || step.CreatePlusOneStep? {
      GuestStepTotal(s, step, p);
    } else if step.CreateCall? || step.ImportCall? || step.FileStep? {
      CreationTotal(s, step, p);
    } else {
      NothingGiven(s, step, p);
      if step.DeletePlusOneStep? || step.DeleteAllStep? {
        RemovalTotal(s, step, p);
      } else {
        ShapelessStep(s, step);
        SameTotal(s.rows, Apply(s, step).rows, p);
      }
    }
  }

  lemma ShapelessStep(s: State, step: Step)
    requires !IsAdminDelete(step) && !step.LimitStep? && !step.DeletePlusOneStep? && !step.DeleteAllStep?
    requires !step.ReplyStep? && !step.PublicStep? && !step.CreatePlusOneStep? && !step.CreateCall? && !step.ImportCall?
    requires !step.FileStep?
    ensures SameShape(s.rows, Apply(s, step).rows)
  {
    hide SameShape;
    ShapeSelf(s.rows);
    if step.StageStep? {
      StageShape(s.rows, step.ids, step.staged);
    } else if step.UpdatePlusOneStep? || step.LinkStep? {
      WriteShape(s, step);
    } else if step.ApproveStep? {
      ApproveShape(s, step.approval);
    } else if step.ResendStep? || step.RemindStep? || step.TicketStep? || step.ReservedStep? {
      MessageShape(s, step);
    } else {
      assert Apply(s, step).rows == s.rows;
    }
  }

  /** The total `p` must have after a run, starting from `balance`. */
  ghost function Balance(s: State, steps: seq<Step>, p: Id, balance: int): int
    decreases |steps|
  {
    if steps == [] then balance
    else Balance(Apply(s, steps[0]), steps[1..], p, Due(s, steps[0], p, balance))
  }

  /**
   Conservation over every run: remaining capacity plus direct children is the last granted total (or the total at
   the start), plus every child given without a slot since, minus every child an administrative delete took.
   */
  lemma {:induction false} PlusOneLedger(s: State, steps: seq<Step>, p: Id)
    requires StoreInv(s) && p in s.rows && p in Run(s, steps).rows
    ensures Total(Run(s, steps).rows, p) == Balance(s, steps, p, Total(s.rows, p))
    decreases |steps|
  {
    hide Apply;
    hide Total;
    hide Due;
    hide Sound;
    if steps != [] {
      var t := Apply(s, steps[0]);
      StoreStep(s, steps[0]);
      LastsStep(s, steps[0]);
      StaysThroughout(s, t, steps[1..], p);
      LedgerStep(s, steps[0], p);
      PlusOneLedger(t, steps[1..], p);
    }
  }

  /** What is there at the end, and was there at the start, was never gone. */
  lemma StaysThroughout(s: State, t: State, rest: seq<Step>, p: Id)
    requires StoreInv(s) && StoreInv(t) && p in s.rows && p in Run(t, rest).rows && s.nextId <= t.nextId
    ensures p in t.rows
  {
    LastsRun(t, rest);
  }
}
