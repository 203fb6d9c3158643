/**
 Plus-ones across calls: creating one and deleting it again, capacity below
 zero, and how a reply goes past the granted limit.
 */
module PlusOnes {
  import opened Prelude
  import opened Store
  import opened Forest
  import opened Confirmation
  import opened Operations
  import opened Imports
  import opened System
  import opened Invariants
  import opened Evolution
  import opened Deletion
  import opened Ledger

  // ------------------------------------------------------ create, then delete

  /** What decides who may add plus-ones under a row, and how many. */
  predicate SameOwner(r: Row, t: Row) {
    t.guest == r.guest && t.inviter == r.inviter && t.event == r.event && t.maxInvitees == r.maxInvitees
  }

  lemma CommittedPlusOne(s: State, call: PlusOneCall)
    requires CreatePlusOneRefusal(s, call).None? && call.parent.value < s.nextId
    ensures var t, parent := CreatePlusOneCommit(s, call), call.parent.value;
      && s.nextId in t.rows
      && t.rows == TakeSlots(s, parent, 1).rows[s.nextId := t.rows[s.nextId]]
      && t.rows[s.nextId].parent == Some(parent)
      && t.rows[s.nextId].pendingId == Some(s.nextToken)
      && t.rows[s.nextId].guest.None?
      && t.cache.Keys == s.cache.Keys + {s.nextToken} && t.cache - {s.nextToken} == s.cache - {s.nextToken}
  {
  }

  /** What creating a plus-one, approved at once or not, leaves of the rows and the cache. */
  lemma CreatedPlusOne(s: State, call: PlusOneCall)
    requires CreatePlusOneRefusal(s, call).None? && call.parent.value < s.nextId
    ensures var t, parent := CreatePlusOne(s, call).state, call.parent.value;
      && s.nextId in t.rows
      && t.rows == TakeSlots(s, parent, 1).rows[s.nextId := t.rows[s.nextId]]
      && t.rows[s.nextId].parent == Some(parent)
      && t.rows[s.nextId].pendingId == Some(s.nextToken)
      && t.rows[s.nextId].guest.None?
      && t.cache.Keys == s.cache.Keys + {s.nextToken} && t.cache - {s.nextToken} == s.cache - {s.nextToken}
  {
    CommittedPlusOne(s, call);
    if PlusOneAutoApproves(s, call) {
      var a := AutoApproval(s.nextId, call.event.value, call.actor.user.value, true);
      assert ApprovalRefusal(CreatePlusOneCommit(s, call), a).None?;
      hide CreatePlusOneCommit;
      hide Approve;
      hide ApprovalRefusal;
      SeatlessApproval(CreatePlusOneCommit(s, call), a);
    }
  }

  /** A new row without children is all that a cascade from it takes. */
  lemma NewRowGoesAlone(rows: Rows, nextId: Id, r: Row)
    requires IsForest(rows, nextId) && (r.parent.Some? ==> r.parent.value in rows)
    ensures Cascade(rows[nextId := r], {nextId}) == rows
  {
    var grown := rows[nextId := r];
    forall id | id in rows ensures !Under(grown, id, {nextId}) {
      if Under(grown, id, {nextId}) {
        UnderIsYounger(grown, id, {nextId});
      }
    }
  }

  lemma SlotReturned(s: State, parent: Id)
    requires parent in s.rows
    ensures var taken := TakeSlots(s, parent, 1).rows;
      && parent in taken
      && taken[parent := GiveBack(taken[parent], 1)] == s.rows
      && SameOwner(s.rows[parent], taken[parent].(maxInvitees := s.rows[parent].maxInvitees))
  {
  }

  /** Who may manage a row's plus-ones does not depend on its places. */
  lemma SameManager(s: State, t: State, call: PlusOneCall)
    requires CreatePlusOneRefusal(s, call).None? && call.parent.value in t.rows
    requires var r, later := s.rows[call.parent.value], t.rows[call.parent.value];
      SameOwner(r, later.(maxInvitees := r.maxInvitees))
    requires s.nextId in t.rows && t.rows[s.nextId].parent == call.parent
    ensures ManageRefusal(t, s.nextId, call.actor).None?
  {
  }

  /** Deleting the plus-one just created gives back the same rows and the same cache. */
  lemma CreateThenDelete(s: State, call: PlusOneCall)
    requires StoreInv(s) && CreatePlusOneRefusal(s, call).None?
    ensures var back := DeletePlusOne(CreatePlusOne(s, call).state, s.nextId, call.actor);
      && back.outcome == Done
      && back.state.rows == s.rows && back.state.cache == s.cache
      && back.state.log == CreatePlusOne(s, call).state.log
  {
    hide CreatePlusOne;
    hide DeletePlusOneCommit;
    hide ManageRefusal;
    hide TakeSlots;
    hide Sound;
    hide Cascade;
    var t, parent := CreatePlusOne(s, call).state, call.parent.value;
    IdIsOld(s, parent);
    CreatedPlusOne(s, call);
    var taken := TakeSlots(s, parent, 1);
    TakeSlotsKeeps(s, parent, 1);
    TakenIds(s, parent);
    IsAForest(taken);
    SlotReturned(s, parent);
    NewRowGoesAlone(taken.rows, s.nextId, t.rows[s.nextId]);
    SameManager(s, t, call);
    RemovedAgain(t, s.nextId);
    FreshToken(s);
  }

  lemma TakenIds(s: State, parent: Id)
    requires parent in s.rows
    ensures TakeSlots(s, parent, 1).nextId == s.nextId
  {
  }

  // -------------------------------------------------------- capacity below zero

  ghost predicate NoDebt(rows: Rows) {
    forall id | id in rows :: rows[id].maxInvitees >= 0
  }

  /** The one way below zero: an import that stores a negative number. */
  ghost predicate ImportsDebt(s: State, step: Step) {
    || (step.ImportCall? && ParentsExist(s, step.records)
        && exists k :: 0 <= k < |step.records| && step.records[k].maxInvitees < 0)
    || (step.FileStep? && MissingFields(step.lines) == []
        && exists line :: line in Kept(KeysOf(s.rows, step.target), step.lines) && line.maxPlusOnes < 0)
  }

  lemma SameShapeNoDebt(rows: Rows, later: Rows)
    requires NoDebt(rows) && SameShape(rows, later)
    ensures NoDebt(later)
  {
  }

  lemma ApproveNoDebt(s: State, a: Approval)
    requires NoDebt(s.rows)
    ensures NoDebt(Approve(s, a).state.rows)
  {
    hide Approve;
    ApproveShape(s, a);
  }

  lemma InsertAllNoDebt(s: State, rs: seq<Row>)
    requires NoDebt(s.rows) && (forall id | id in s.rows :: id < s.nextId)
    ensures NoDebt(InsertAll(s, rs).rows) <==> forall k | 0 <= k < |rs| :: rs[k].maxInvitees >= 0
  {
    var t := InsertAll(s, rs).rows;
    forall k | 0 <= k < |rs| ensures s.nextId + k in t && t[s.nextId + k] == rs[k] {
      InsertedAt(s, rs, k);
    }
    forall id | id in t ensures (id in s.rows && t[id] == s.rows[id]) || s.nextId <= id < s.nextId + |rs| {
    }
    hide InsertAll;
    if !NoDebt(t) {
      var id :| id in t && t[id].maxInvitees < 0;
      assert t[id] == rs[id - s.nextId];
    }
  }

  lemma ReplyNoDebt(s: State, call: ReplyCall)
    requires NoDebt(s.rows) && IsForest(s.rows, s.nextId)
    ensures NoDebt(Reply(s, call).state.rows)
  {
    hide Approve;
    if ReplyRefusal(s, call).None? {
      var r, replied := s.rows[call.id], ReplyCommit(s, call);
      hide ReplyCommit;
      hide AcceptedChildren;
      var rs := AcceptedChildren(PRIVATE, r.event, call.id, AllowedPlusOnes(r, call), s.now);
      ReplyWrites(s, call);
      AcceptedChildrenHaveNoPlaces(PRIVATE, r.event, call.id, AllowedPlusOnes(r, call), s.now);
      InsertAllNoDebt(s, rs);
      if ReplyAutoApproves(s, call) && r.inviter.Some? {
        ApproveNoDebt(replied, AutoApproval(call.id, r.event, r.inviter.value, call.grantSucceeds));
      }
    }
  }

  lemma AcceptedChildrenHaveNoPlaces(kind: Kind, event: EventId, parent: Id, ps: seq<PlusOne>, now: int)
    ensures forall k | 0 <= k < |ps| :: AcceptedChildren(kind, event, parent, ps, now)[k].maxInvitees == 0
  {
  }

  lemma PublicNoDebt(s: State, call: PublicCall)
    requires NoDebt(s.rows) && IsForest(s.rows, s.nextId)
    ensures NoDebt(PublicRsvp(s, call).state.rows)
  {
    hide Approve;
    if PublicRefusal(call).None? {
      PublicCommitNoDebt(s, call);
      ApproveNoDebt(PublicCommit(s, call), AutoApproval(s.nextId, call.event, SYSTEM_ACTOR, true));
    }
  }

  lemma PublicCommitNoDebt(s: State, call: PublicCall)
    requires NoDebt(s.rows) && IsForest(s.rows, s.nextId)
    ensures NoDebt(PublicCommit(s, call).rows)
  {
  }

  lemma CreatePlusOneNoDebt(s: State, call: PlusOneCall)
    requires NoDebt(s.rows)
    ensures NoDebt(CreatePlusOne(s, call).state.rows)
  {
    hide Approve;
    if CreatePlusOneRefusal(s, call).None? && PlusOneAutoApproves(s, call) {
      ApproveNoDebt(CreatePlusOneCommit(s, call),
        AutoApproval(s.nextId, call.event.value, call.actor.user.value, true));
    }
  }

  lemma RemovalNoDebt(s: State, step: Step)
    requires NoDebt(s.rows) && (step.DeletePlusOneStep? || step.DeleteAllStep?)
    ensures NoDebt(Apply(s, step).rows)
  {
    match step {
      case DeletePlusOneStep(id, actor) =>
        if ManageRefusal(s, id, actor).None? {
          DeletePlusOneNoDebt(s, id);
        }
      case DeleteAllStep(id, actor, order) =>
        if id in s.rows {
          DeleteAllNoDebt(s, id, GuestsOf(s.rows, order));
        }
    }
  }

  lemma DeletePlusOneNoDebt(s: State, id: Id)
    requires NoDebt(s.rows) && id in s.rows && s.rows[id].parent.Some?
    ensures NoDebt(DeletePlusOneCommit(s, id).rows)
  {
  }

  lemma DeleteAllNoDebt(s: State, parent: Id, guests: multiset<UserId>)
    requires NoDebt(s.rows) && parent in s.rows
    ensures NoDebt(DeleteAllCommit(s, parent, guests).rows)
  {
  }

  lemma DeletesNoDebt(s: State, step: Step)
    requires NoDebt(s.rows) && IsAdminDelete(step)
    ensures NoDebt(Apply(s, step).rows)
  {
    match step {
      case DeleteManyStep(list, active) =>
        if DeleteEach(s.rows, list, active).Some? {
          DeleteEachShrinks(s.rows, list, active);
        }
      case _ =>
    }
  }

  lemma AdminNoDebt(s: State, step: Step)
    requires NoDebt(s.rows) && (step.LimitStep? || step.CreateCall?)
    ensures NoDebt(Apply(s, step).rows)
  {
  }

  lemma ImportNoDebt(s: State, step: Step)
    requires StoreInv(s) && NoDebt(s.rows) && step.ImportCall?
    ensures NoDebt(Apply(s, step).rows) <==> !ImportsDebt(s, step)
  {
    hide InsertAll;
    hide NoDebt;
    var rs := RecordRows(step.records);
    assert forall k | 0 <= k < |rs| :: rs[k].maxInvitees == step.records[k].maxInvitees;
    assert forall id | id in s.rows :: id < s.nextId;
    InsertAllNoDebt(s, rs);
  }

  lemma FileNoDebt(s: State, step: Step)
    requires StoreInv(s) && NoDebt(s.rows) && step.FileStep?
    ensures NoDebt(Apply(s, step).rows) <==> !ImportsDebt(s, step)
  {
    hide InsertAll;
    hide NoDebt;
    hide Kept;
    hide KeysOf;
    var kept := Kept(KeysOf(s.rows, step.target), step.lines);
    var rs := LineRows(step.target, step.importer, kept);
    assert forall k | 0 <= k < |rs| :: rs[k].maxInvitees == kept[k].maxPlusOnes;
    assert forall id | id in s.rows :: id < s.nextId;
    InsertAllNoDebt(s, rs);
  }

  lemma GuestNoDebt(s: State, step: Step)
    requires StoreInv(s) && NoDebt(s.rows) && (step.ReplyStep? || step.PublicStep? || step.CreatePlusOneStep?)
    ensures NoDebt(Apply(s, step).rows)
  {
    hide Reply;
    hide PublicRsvp;
    hide CreatePlusOne;
    match step {
      case ReplyStep(call) => ReplyNoDebt(s, call);
      case PublicStep(call) => PublicNoDebt(s, call);
      case CreatePlusOneStep(call) => CreatePlusOneNoDebt(s, call);
    }
  }

  /** From a store without negative capacity, a call leads to one exactly when it imports a negative number. */
  lemma CapacityStaysNonNegative(s: State, step: Step)
    requires StoreInv(s) && NoDebt(s.rows)
    ensures NoDebt(Apply(s, step).rows) <==> !ImportsDebt(s, step)
  {
    hide Apply;
    hide NoDebt;
    hide Sound;
    if step.ImportCall? {
      ImportNoDebt(s, step);
    } else if step.FileStep? {
      FileNoDebt(s, step);
    } else if step.ReplyStep? || step.PublicStep? || step.CreatePlusOneStep? {
      GuestNoDebt(s, step);
    } else if step.DeletePlusOneStep? || step.DeleteAllStep? {
      RemovalNoDebt(s, step);
    } else if IsAdminDelete(step) {
      DeletesNoDebt(s, step);
    } else if step.LimitStep? || step.CreateCall? {
      AdminNoDebt(s, step);
    } else {
      ShapelessStep(s, step);
      SameShapeNoDebt(s.rows, Apply(s, step).rows);
    }
  }

  /** Without such an import no run takes a capacity below zero. */
  lemma {:induction false} CapacityOverRuns(s: State, steps: seq<Step>)
    requires StoreInv(s) && NoDebt(s.rows)
    requires forall k, j | 0 <= k < |steps| && steps[k].ImportCall? && 0 <= j < |steps[k].records| ::
      steps[k].records[j].maxInvitees >= 0
    requires forall k, line | 0 <= k < |steps| && steps[k].FileStep? && line in steps[k].lines :: line.maxPlusOnes >= 0
    ensures NoDebt(Run(s, steps).rows)
    decreases |steps|
  {
    hide Sound;
    hide Apply;
    hide NoDebt;
    if steps != [] {
      if steps[0].FileStep? {
        KeptKeysAreNew(KeysOf(s.rows, steps[0].target), steps[0].lines);
      }
      CapacityStaysNonNegative(s, steps[0]);
      StoreStep(s, steps[0]);
      CapacityOverRuns(Apply(s, steps[0]), steps[1..]);
    }
  }

  // -------------------------------------------------- past the granted limit

  lemma SendKeepsOwner(s: State, id: Id, seat: Option<Seat>, locale: Option<string>)
    requires id in s.rows
    ensures var t := SendOrReserve(s, id, seat, locale).rows;
      id in t && SameOwner(s.rows[id], t[id])
  {
  }

  lemma ApproveKeepsOwner(s: State, a: Approval)
    requires a.id in s.rows
    ensures var t := Approve(s, a).state.rows;
      a.id in t && SameOwner(s.rows[a.id], t[a.id])
  {
    hide SendOrReserve;
    if ApprovalRefusal(s, a).None? && a.approve {
      var marked := MarkApproved(s, a);
      SendKeepsOwner(marked, a.id, a.seat, a.locale);
    }
  }

  lemma ReplyKeepsOwner(s: State, call: ReplyCall)
    requires IsForest(s.rows, s.nextId) && ReplyRefusal(s, call).None?
    ensures var t := Reply(s, call).state;
      call.id in t.rows && SameOwner(s.rows[call.id], t.rows[call.id])
  {
    hide Approve;
    var r, replied := s.rows[call.id], ReplyCommit(s, call);
    assert call.id !in NewIds(s.nextId, |AllowedPlusOnes(r, call)|);
    assert SameOwner(r, replied.rows[call.id]);
    if ReplyAutoApproves(s, call) && r.inviter.Some? {
      ApproveKeepsOwner(replied, AutoApproval(call.id, r.event, r.inviter.value, call.grantSucceeds));
    }
  }

  lemma CreatePlusOneTakesAPlace(s: State, call: PlusOneCall)
    requires CreatePlusOneRefusal(s, call).None? && call.parent.value < s.nextId
    ensures var t, p := CreatePlusOne(s, call).state, call.parent.value;
      p in t.rows && t.rows[p].maxInvitees == s.rows[p].maxInvitees - 1
  {
    hide CreatePlusOne;
    CreatedPlusOne(s, call);
  }

  /**
   The plus-ones of a reply take no places, so every place can be used again through createPlusOne:
   whatever plus-one the parent's owner could create before the reply can still be created after it, and
   a childless parent whose reply named as many people as it has places ends up with one child too many.
   */
  lemma PlacesCanBeUsedTwice(s: State, reply: ReplyCall, call: PlusOneCall)
    requires StoreInv(s) && ReplyRefusal(s, reply).None? && reply.id in s.rows
    requires call.parent == Some(reply.id) && CreatePlusOneRefusal(s, call).None?
    ensures CreatePlusOneRefusal(Reply(s, reply).state, call).None?
    ensures var p, brought := reply.id, |AllowedPlusOnes(s.rows[reply.id], reply)|;
      var t := CreatePlusOne(Reply(s, reply).state, call).state;
      && p in t.rows
      && |Children(t.rows, p)| == |Children(s.rows, p)| + brought + 1
      && (Children(s.rows, p) == {} && brought == s.rows[p].maxInvitees ==> |Children(t.rows, p)| > Total(s.rows, p))
  {
    hide Sound;
    hide Reply;
    hide CreatePlusOne;
    hide CreatePlusOneRefusal;
    hide Total;
    var p, t := reply.id, Reply(s, reply).state;
    IsAForest(s);
    ReplyKeepsOwner(s, reply);
    SameRefusal(s, t, call);
    StoreStep(s, ReplyStep(reply));
    LedgerStep(s, ReplyStep(reply), p);
    CreateSpendsAPlace(t, call);
    UnfoldTotals(s.rows, t.rows, CreatePlusOne(t, call).state.rows, p);
  }

  lemma UnfoldTotals(a: Rows, b: Rows, c: Rows, p: Id)
    requires p in a && p in b && p in c
    ensures Total(a, p) == a[p].maxInvitees + |Children(a, p)|
    ensures Total(b, p) == b[p].maxInvitees + |Children(b, p)|
    ensures Total(c, p) == c[p].maxInvitees + |Children(c, p)|
  {
  }

  lemma SameRefusal(s: State, t: State, call: PlusOneCall)
    requires call.parent.Some? && call.parent.value in s.rows && call.parent.value in t.rows
    requires SameOwner(s.rows[call.parent.value], t.rows[call.parent.value])
    ensures CreatePlusOneRefusal(t, call) == CreatePlusOneRefusal(s, call)
  {
  }

  lemma CreateSpendsAPlace(s: State, call: PlusOneCall)
    requires StoreInv(s) && call.parent.Some? && call.parent.value in s.rows && CreatePlusOneRefusal(s, call).None?
    ensures var t, p := CreatePlusOne(s, call).state, call.parent.value;
      p in t.rows && t.rows[p].maxInvitees == s.rows[p].maxInvitees - 1 && Total(t.rows, p) == Total(s.rows, p)
  {
    hide Sound;
    hide CreatePlusOne;
    hide CreatePlusOneRefusal;
    IdIsOld(s, call.parent.value);
    CreatePlusOneTakesAPlace(s, call);
    LedgerStep(s, CreatePlusOneStep(call), call.parent.value);
  }
}
