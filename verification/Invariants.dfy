/**
 The invariant every reachable store satisfies, and the proof that each call keeps it.
 */
module Invariants {
  import opened Prelude
  import opened Store
  import opened Forest
  import opened Rsvp
  import opened Confirmation
  import opened Operations
  import opened Imports
  import opened System

  /**
   Status and answer fit together; a pending token comes with a stored payload;
   no stored payload names a seat, and no resend was ever counted.
   */
  predicate RowOk(r: Row) {
    && Coupled(r.status, r.choice)
    && (r.pendingId.Some? <==> r.payload.Some?)
    && (r.payload.Some? ==> r.payload.value.seat.None?)
    && r.resends == 0
  }

  /** A live cache entry under a row's token equals the payload stored in the row. */
  predicate TokenOk(cache: map<Token, Payload>, nextToken: Token, r: Row) {
    r.pendingId.Some? ==>
      && r.pendingId.value < nextToken
      && (r.pendingId.value in cache ==> r.payload == Some(cache[r.pendingId.value]))
  }

  ghost predicate TokensUnique(rows: Rows) {
    forall i, j | i in rows && j in rows && rows[i].pendingId.Some? && rows[i].pendingId == rows[j].pendingId :: i == j
  }

  ghost predicate Sound(rows: Rows, nextId: Id, cache: map<Token, Payload>, nextToken: Token) {
    && IsForest(rows, nextId)
    && (forall id | id in rows :: RowOk(rows[id]) && TokenOk(cache, nextToken, rows[id]))
    && (forall t | t in cache :: t < nextToken)
    && TokensUnique(rows)
  }

  ghost predicate StoreInv(s: State) {
    Sound(s.rows, s.nextId, s.cache, s.nextToken)
  }

  lemma RowIsOk(s: State, id: Id)
    requires StoreInv(s) && id in s.rows
    ensures RowOk(s.rows[id])
  {
  }

  lemma InitialIsSound(now: int, config: Config)
    ensures StoreInv(Initial(now, config))
  {
  }

  lemma IdIsOld(s: State, id: Id)
    requires StoreInv(s) && id in s.rows
    ensures id < s.nextId
  {
  }

  lemma IsAForest(s: State)
    requires StoreInv(s)
    ensures IsForest(s.rows, s.nextId)
  {
  }

  /** The next token is neither in the cache nor in a row. */
  lemma FreshToken(s: State)
    requires StoreInv(s)
    ensures s.nextToken !in s.cache && forall i | i in s.rows :: s.rows[i].pendingId != Some(s.nextToken)
  {
  }

  // ---------------------------------------------------------- small writes

  /** Overwriting a row without touching its parent or its contact columns. */
  lemma PutKeeps(s: State, id: Id, r: Row)
    requires StoreInv(s) && id in s.rows && RowOk(r) && r.parent == s.rows[id].parent
    requires r.pendingId == s.rows[id].pendingId && r.payload == s.rows[id].payload
    ensures StoreInv(Put(s, id, r))
  {
  }

  lemma InsertKeeps(s: State, r: Row)
    requires StoreInv(s) && RowOk(r) && r.pendingId.None?
    requires r.parent.Some? ==> r.parent.value in s.rows
    ensures StoreInv(Insert(s, r))
  {
  }

  lemma InsertAllKeeps(s: State, rs: seq<Row>)
    requires StoreInv(s)
    requires forall i | 0 <= i < |rs| :: RowOk(rs[i]) && rs[i].pendingId.None?
    requires forall i | 0 <= i < |rs| && rs[i].parent.Some? ::
      rs[i].parent.value in s.rows || s.nextId <= rs[i].parent.value < s.nextId + i
    ensures StoreInv(InsertAll(s, rs))
  {
    var t := InsertAll(s, rs);
    forall id | id in t.rows
      ensures RowOk(t.rows[id]) && TokenOk(t.cache, t.nextToken, t.rows[id]) && id < t.nextId
      ensures t.rows[id].parent.Some? ==> t.rows[id].parent.value in t.rows && t.rows[id].parent.value < id
      ensures id !in s.rows ==> t.rows[id].pendingId.None?
    {
      if id in NewIds(s.nextId, |rs|) {
        assert t.rows[id] == RowFor(rs, s.nextId, id) == rs[id - s.nextId];
      } else {
        assert t.rows[id] == s.rows[id] && TokenOk(s.cache, s.nextToken, s.rows[id]);
      }
    }
  }

  lemma AnchorKeeps(s: State, id: Id, r: Row, p: Payload)
    requires StoreInv(s) && id in s.rows && r.parent == s.rows[id].parent
    requires Coupled(r.status, r.choice) && r.resends == 0 && p.seat.None?
    ensures StoreInv(Anchor(s, id, r, p))
  {
  }

  /** Deleting rows with their descendants, and any cache entries. */
  lemma RemoveKeeps(s: State, roots: set<Id>, tokens: set<Token>)
    requires StoreInv(s)
    ensures StoreInv(s.(rows := Cascade(s.rows, roots), cache := s.cache - tokens))
  {
  }

  // ------------------------------------------------------- the confirmation

  lemma SendFirstKeeps(s: State, id: Id, seat: Option<Seat>, locale: Option<string>)
    requires StoreInv(s)
    ensures StoreInv(SendFirst(s, id, seat, locale))
  {
    if MaySendFirst(s, id) {
      var r := s.rows[id];
      var p := Localized(ResolvePayload(s, r).value, locale);
      AnchorKeeps(s, id, r.(sentAt := Some(s.now)), p);
    }
  }

  lemma ResendKeeps(s: State, id: Id, locale: Option<string>)
    requires StoreInv(s)
    ensures StoreInv(Resend(s, id, locale))
  {
  }

  lemma ApproveKeeps(s: State, a: Approval)
    requires StoreInv(s)
    ensures StoreInv(Approve(s, a).state)
  {
    hide Sound;
    if ApprovalRefusal(s, a).None? {
      RowIsOk(s, a.id);
      var r := s.rows[a.id];
      if a.approve {
        PutKeeps(s, a.id, r.(status := APPROVED, approvedBy := a.actor));
        var marked := MarkApproved(s, a);
        assert StoreInv(marked);
        SendFirstKeeps(marked, a.id, a.seat, a.locale);
      } else {
        RejectKeeps(s, a);
      }
    }
  }

  lemma RejectKeeps(s: State, a: Approval)
    requires StoreInv(s) && a.id in s.rows
    ensures StoreInv(Reject(s, a))
  {
    var t := Reject(s, a);
    forall id | id in t.rows ensures RowOk(t.rows[id]) && TokenOk(t.cache, t.nextToken, t.rows[id]) {
      assert TokenOk(s.cache, s.nextToken, s.rows[id]);
    }
  }

  // ---------------------------------------------------------- guest writes

  lemma AcceptedChildrenOk(kind: Kind, event: EventId, parent: Id, ps: seq<PlusOne>, now: int)
    ensures var rs := AcceptedChildren(kind, event, parent, ps, now);
      forall i | 0 <= i < |rs| :: RowOk(rs[i]) && rs[i].pendingId.None? && rs[i].parent == Some(parent)
  {
  }

  lemma ReplyCommitKeeps(s: State, call: ReplyCall)
    requires StoreInv(s) && ReplyRefusal(s, call).None?
    ensures StoreInv(ReplyCommit(s, call))
  {
    var r, replied := s.rows[call.id], RepliedRow(s, call);
    var allowed := AllowedPlusOnes(r, call);
    PutKeeps(s, call.id, replied);
    var children := AcceptedChildren(PRIVATE, r.event, call.id, allowed, s.now);
    AcceptedChildrenOk(PRIVATE, r.event, call.id, allowed, s.now);
    InsertAllKeeps(Put(s, call.id, replied), children);
    if call.choice.YES? && call.details.Some? {
      var p := Payload(call.id, replied.firstName, replied.lastName, call.locale, None, IdsFrom(s.nextId, |allowed|));
      AnchorKeeps(InsertAll(Put(s, call.id, replied), children), call.id, replied, p);
    }
  }

  lemma ReplyKeeps(s: State, call: ReplyCall)
    requires StoreInv(s)
    ensures StoreInv(Reply(s, call).state)
  {
    hide Sound;
    if ReplyRefusal(s, call).None? {
      var r := s.rows[call.id];
      ReplyCommitKeeps(s, call);
      if ReplyAutoApproves(s, call) && r.inviter.Some? {
        ApproveKeeps(ReplyCommit(s, call), AutoApproval(call.id, r.event, r.inviter.value, call.grantSucceeds));
      }
    }
  }

  lemma TakeSlotsKeeps(s: State, parent: Id, slots: int)
    requires StoreInv(s) && parent in s.rows
    ensures StoreInv(TakeSlots(s, parent, slots))
  {
  }

  lemma CreatePlusOneCommitKeeps(s: State, call: PlusOneCall)
    requires StoreInv(s) && CreatePlusOneRefusal(s, call).None?
    ensures StoreInv(CreatePlusOneCommit(s, call))
  {
    hide Sound;
    var parent, child := call.parent.value, PlusOneRow(s, call);
    TakeSlotsKeeps(s, parent, 1);
    InsertKeeps(TakeSlots(s, parent, 1), child);
    AnchorKeeps(Insert(TakeSlots(s, parent, 1), child), s.nextId, child,
                Payload(s.nextId, child.firstName, child.lastName, call.locale, None, []));
  }

  lemma CreatePlusOneKeeps(s: State, call: PlusOneCall)
    requires StoreInv(s)
    ensures StoreInv(CreatePlusOne(s, call).state)
  {
    hide Sound;
    if CreatePlusOneRefusal(s, call).None? {
      CreatePlusOneCommitKeeps(s, call);
      if PlusOneAutoApproves(s, call) {
        ApproveKeeps(CreatePlusOneCommit(s, call),
                     AutoApproval(s.nextId, call.event.value, call.actor.user.value, true));
      }
    }
  }

  lemma PublicCommitKeeps(s: State, call: PublicCall)
    requires StoreInv(s)
    ensures StoreInv(PublicCommit(s, call))
  {
    hide Sound;
    hide InsertAll;
    var row := PublicRow(s, call);
    InsertKeeps(s, row);
    var children := AcceptedChildren(PUBLIC, call.event, s.nextId, call.plusOnes, s.now);
    AcceptedChildrenOk(PUBLIC, call.event, s.nextId, call.plusOnes, s.now);
    InsertAllKeeps(Insert(s, row), children);
    InsertAllKeepsOld(Insert(s, row), children, s.nextId);
    AnchorKeeps(InsertAll(Insert(s, row), children), s.nextId, row,
      Payload(s.nextId, call.firstName, call.lastName, call.locale, None, IdsFrom(s.nextId + 1, |call.plusOnes|)));
  }

  lemma PublicKeeps(s: State, call: PublicCall)
    requires StoreInv(s)
    ensures StoreInv(PublicRsvp(s, call).state)
  {
    hide Sound;
    hide Approve;
    hide PublicCommit;
    if PublicRefusal(call).None? {
      PublicCommitKeeps(s, call);
      if PublicRow(s, call).autoApprove {
        ApproveKeeps(PublicCommit(s, call), AutoApproval(s.nextId, call.event, SYSTEM_ACTOR, true));
      }
    }
  }

  lemma DeletePlusOneKeeps(s: State, id: Id, actor: Actor)
    requires StoreInv(s)
    ensures StoreInv(DeletePlusOne(s, id, actor).state)
  {
    hide Sound;
    if ManageRefusal(s, id, actor).None? {
      var r := s.rows[id];
      var gone := if r.pendingId.Some? then {r.pendingId.value} else {};
      RemoveKeeps(s, {id}, gone);
      var s1 := s.(rows := Cascade(s.rows, {id}), cache := s.cache - gone);
      assert Forget(s, r.pendingId).(rows := Cascade(s.rows, {id})) == s1;
      if r.parent.value in s1.rows {
        TakeSlotsKeeps(s1, r.parent.value, -1);
      }
    }
  }

  lemma DeleteAllKeeps(s: State, parent: Id, actor: Actor, order: seq<Id>)
    requires StoreInv(s)
    requires parent in s.rows ==> Lists(order, RemovableChildren(s.rows, parent))
    ensures StoreInv(DeleteAllPlusOnes(s, parent, actor, order).state)
  {
    if DeleteAllRefusal(s, parent, actor).None? {
      DeleteAllCommitKeeps(s, parent, GuestsOf(s.rows, order));
    }
  }

  lemma DeleteAllCommitKeeps(s: State, parent: Id, guests: multiset<UserId>)
    requires StoreInv(s) && parent in s.rows
    ensures StoreInv(DeleteAllCommit(s, parent, guests))
  {
    hide Sound;
    var kids := RemovableChildren(s.rows, parent);
    var s1 := s.(rows := Cascade(s.rows, kids), cache := s.cache - PendingOf(s.rows, kids));
    RemoveKeeps(s, kids, PendingOf(s.rows, kids));
    if parent in s1.rows {
      TakeSlotsKeeps(s1, parent, -|kids|);
    }
  }

  // ----------------------------------------------------------- admin writes

  lemma StagedRowOk(r: Row, staged: bool)
    requires RowOk(r) && CanChangeStage(r, staged)
    ensures RowOk(StagedRow(r, staged))
  {
    match r.choice {
      case None =>
      case Some(YES) =>
      case Some(NO) =>
      case Some(MAYBE) =>
    }
  }

  lemma StageKeeps(s: State, ids: set<Id>, staged: bool, active: Option<EventId>)
    requires StoreInv(s)
    ensures StoreInv(Stage(s, ids, staged, active).state)
  {
    if StageRefusal(s, ids, staged, active).None? {
      var t := Stage(s, ids, staged, active).state;
      forall id | id in t.rows ensures RowOk(t.rows[id]) && TokenOk(t.cache, t.nextToken, t.rows[id]) {
        assert RowOk(s.rows[id]) && TokenOk(s.cache, s.nextToken, s.rows[id]);
        if id in ids {
          StagedRowOk(s.rows[id], staged);
        }
      }
    }
  }

  lemma ImportKeeps(s: State, records: seq<Record>)
    requires StoreInv(s)
    ensures StoreInv(ImportMany(s, records).state)
  {
    if ParentsExist(s, records) {
      var rs := RecordRows(records);
      forall i | 0 <= i < |rs| ensures rs[i] == RecordRow(records[i]) && RowOk(rs[i]) && rs[i].pendingId.None? {}
      InsertAllKeeps(s, rs);
    }
  }

  lemma FileKeeps(s: State, event: EventId, actor: UserId, lines: seq<Line>)
    requires StoreInv(s)
    ensures StoreInv(ImportFile(s, event, actor, lines))
  {
    hide Kept;
    hide KeysOf;
    var rs := LineRows(event, actor, Kept(KeysOf(s.rows, event), lines));
    forall i | 0 <= i < |rs| ensures RowOk(rs[i]) && rs[i].pendingId.None? && rs[i].parent.None? {}
    InsertAllKeeps(s, rs);
  }

  lemma CreateKeeps(s: State, event: Option<EventId>, rec: Record)
    requires StoreInv(s)
    ensures StoreInv(Create(s, event, rec).state)
  {
    if Create(s, event, rec).outcome.Done? {
      InsertKeeps(s, CreatedRow(s, event.value, rec));
    }
  }

  lemma NothingUnderNothing(rows: Rows)
    ensures Cascade(rows, {}) == rows
  {
    forall id | id in rows ensures !Under(rows, id, {}) {
      if Under(rows, id, {}) {
        UnderIsYounger(rows, id, {});
      }
    }
  }

  /** Several cascades are one cascade; `roots` are the ids that were still there when their turn came. */
  lemma {:induction false} DeleteEachIsACascade(rows: Rows, ids: seq<Id>, active: Option<EventId>)
    requires DeleteEach(rows, ids, active).Some?
    ensures DeleteEach(rows, ids, active).value == Cascade(rows, AsSet(ids))
    decreases |ids|
  {
    if ids == [] {
      NothingUnderNothing(rows);
      assert AsSet(ids) == {};
    } else {
      DeleteEachIsACascade(Cascade(rows, {ids[0]}), ids[1..], active);
      CascadeTwice(rows, {ids[0]}, AsSet(ids[1..]));
      assert {ids[0]} + AsSet(ids[1..]) == AsSet(ids);
    }
  }

  lemma DeletesKeep(s: State, step: Step)
    requires StoreInv(s)
    requires step.DeleteStep? || step.DeleteManyStep? || step.DeleteGuestStep? || step.DeleteEventsStep?
    ensures StoreInv(Apply(s, step))
  {
    hide Sound;
    match step {
      case DeleteStep(id, active) => RemoveKeeps(s, {id}, {});
      case DeleteManyStep(list, active) =>
        if DeleteEach(s.rows, list, active).Some? {
          DeleteEachIsACascade(s.rows, list, active);
          RemoveKeeps(s, AsSet(list), {});
        }
      case DeleteGuestStep(user) => RemoveKeeps(s, IdsOfGuest(s.rows, user), {});
      case DeleteEventsStep(events) => RemoveKeeps(s, IdsOfEvents(s.rows, events), {});
    }
    assert s.cache - {} == s.cache;
  }

  lemma DropKeeps(s: State, token: Token)
    requires StoreInv(s)
    ensures StoreInv(s.(cache := s.cache - {token}))
  {
  }

  lemma SmallWritesKeep(s: State, step: Step)
    requires StoreInv(s)
    requires step.UpdatePlusOneStep? || step.LimitStep? || step.LinkStep?
    ensures StoreInv(Apply(s, step))
  {
    hide Sound;
    if step.id in s.rows {
      RowIsOk(s, step.id);
      var r := s.rows[step.id];
      match step {
        case UpdatePlusOneStep(id, person, _, _) =>
          PutKeeps(s, id, r.(firstName := person.firstName, lastName := person.lastName));
        case LimitStep(id, total, _) => PutKeeps(s, id, r.(maxInvitees := total - |Children(s.rows, id)|));
        case LinkStep(id, user) => PutKeeps(s, id, r.(guest := Some(user)));
      }
    }
  }

  lemma MessagesKeep(s: State, step: Step)
    requires StoreInv(s)
    requires step.ResendStep? || step.RemindStep? || step.TicketStep? || step.ReservedStep?
    ensures StoreInv(Apply(s, step))
  {
    hide Sound;
    match step {
      case ResendStep(id, locale) => ResendKeeps(s, id, locale);
      case RemindStep(id, preset) => ResendKeeps(s, id, None);
      case TicketStep(job) => SendFirstKeeps(s, job.id, job.seat, job.locale);
      case ReservedStep(id, seat) => SendFirstKeeps(Emit(s, SeatReserved(id, seat)), id, Some(seat), None);
    }
  }

  lemma StoreStep(s: State, step: Step)
    requires StoreInv(s)
    ensures StoreInv(Apply(s, step))
  {
    hide Sound;
    match step {
      case CreateCall(event, rec) => CreateKeeps(s, event, rec);
      case ImportCall(records) => ImportKeeps(s, records);
      case FileStep(event, actor, lines) => FileKeeps(s, event, actor, lines);
      case ReplyStep(call) => ReplyKeeps(s, call);
      case PublicStep(call) => PublicKeeps(s, call);
      case ApproveStep(a) => ApproveKeeps(s, a);
      case StageStep(ids, staged, active) => StageKeeps(s, ids, staged, active);
      case CreatePlusOneStep(call) => CreatePlusOneKeeps(s, call);
      case DeletePlusOneStep(id, actor) => DeletePlusOneKeeps(s, id, actor);
      case DeleteAllStep(id, actor, order) =>
        if id !in s.rows || Lists(order, RemovableChildren(s.rows, id)) {
          DeleteAllKeeps(s, id, actor, order);
        }
      case TickStep(_) =>
      case SettingsStep(_, _) =>
      case RemoveSettingsStep(_) =>
      case DropCacheStep(token) => DropKeeps(s, token);
      case EvictCooldownStep(_) =>
      case _ =>
        if step.UpdatePlusOneStep? || step.LimitStep? || step.LinkStep? {
          SmallWritesKeep(s, step);
        } else if step.ResendStep? || step.RemindStep? || step.TicketStep? || step.ReservedStep? {
          MessagesKeep(s, step);
        } else {
          DeletesKeep(s, step);
        }
    }
  }

  /**
   Every run from the empty store, or from any store that satisfies it: the parent pointers form a
   forest, each status fits its answer, and the contact stored in a row agrees with its token and the cache.
   */
  lemma {:induction false} StoreRun(s: State, steps: seq<Step>)
    requires StoreInv(s)
    ensures StoreInv(Run(s, steps))
    decreases |steps|
  {
    hide Sound;
    if steps != [] {
      StoreStep(s, steps[0]);
      StoreRun(Apply(s, steps[0]), steps[1..]);
    }
  }
}
