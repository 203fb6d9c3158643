/** `AdminWriteService` as it runs, proved against `Operations` and `Imports`. */
module AdminWriteService {
  import opened Prelude
  import opened Store
  import opened Forest
  import opened Confirmation
  import opened Operations
  import opened Imports
  import opened Deletion
  import opened Platform
  import opened ConfirmationService

  /** What an import reports; a missing field comes with the line's number in the file. */
  datatype FileResult = FileResult(
    total: nat, imported: nat, skipped: int, duplicates: seq<string>, errors: seq<(nat, string)>)

  class AdminWriteService {
    const db: Backend
    const confirmation: GuestConfirmationService

    constructor (confirmation: GuestConfirmationService)
      ensures Valid() && this.confirmation == confirmation
    {
      this.db, this.confirmation := confirmation.db, confirmation;
    }

    ghost predicate Valid() {
      confirmation.db == db
    }

    method CreateInvitation(event: Option<EventId>, rec: Record) returns (outcome: Outcome)
      modifies db
      ensures Answer(db.View(), outcome) == Operations.Create(old(db.View()), event, rec)
    {
      if event.None? {
        return Threw(InvalidInput);
      }
      if rec.maxInvitees < 0 {
        return Threw(InvalidInput);
      }
      var settings := if event.value in db.settings then Some(db.settings[event.value]) else None;
      var mode := if settings.Some? then Some(settings.value.approvalMode) else None;
      if rec.parent.Some? && rec.parent.value !in db.rows {
        return Threw(ParentMissing);
      }
      var _ := db.Create(BlankRow(PRIVATE, event.value, rec.firstName, rec.lastName).(
        endsAt := if settings.Some? then settings.value.endsAt else None,
        autoApprove := ShouldAutoApprove(mode, PRIVATE),
        parent := rec.parent, inviter := rec.inviter, maxInvitees := rec.maxInvitees));
      outcome := Done;
    }

    /** The approval is stored before the checks of name and contact. */
    method Approve(a: Approval) returns (outcome: Outcome)
      requires Valid()
      modifies db
      ensures Answer(db.View(), outcome) == Operations.Approve(old(db.View()), a)
    {
      if a.id !in db.rows {
        return Threw(NotFound);
      }
      var invitation := db.rows[a.id];
      if a.active.None? || invitation.event != a.active.value {
        return Threw(EventMismatch);
      }
      if invitation.choice.None? && a.approve {
        return Threw(RsvpNotSubmitted);
      }
      if invitation.choice != Some(YES) && a.approve {
        return Threw(RsvpNotAccepted);
      }
      if a.approve && invitation.status.APPROVED? {
        return Threw(AlreadyApproved);
      }
      if !a.approve && invitation.status.REJECTED? {
        return Threw(AlreadyRejected);
      }
      if a.approve {
        outcome := AcceptInvitation(a, invitation);
      } else {
        db.CacheDelete(invitation.pendingId);
        db.Update(a.id, invitation.(
          pendingId := None, payload := None, status := REJECTED, approvedBy := a.actor));
        outcome := Done;
      }
    }

    method AcceptInvitation(a: Approval, invitation: Row) returns (outcome: Outcome)
      requires Valid() && a.id in db.rows && db.rows[a.id] == invitation
      requires ApprovalRefusal(db.View(), a.(grantSucceeds := true)).None? && a.approve
      modifies db
      ensures Answer(db.View(), outcome) == Operations.Approve(old(db.View()), a)
    {
      hide SendOrReserve;
      if invitation.guest.Some? && !a.grantSucceeds {
        return Threw(GrantFailed);
      }
      var updated := invitation.(status := APPROVED, approvedBy := a.actor);
      db.Update(a.id, updated);
      if a.seat.Some? {
        db.Send(ApprovedWithSeat(a.id, a.seat.value));
      }
      if updated.guest.Some? {
        return Done;
      }
      if updated.firstName == "" || updated.lastName == "" {
        return Threw(MissingGuestName);
      }
      if updated.pendingId.None? {
        return Threw(MissingPendingContact);
      }
      if updated.event in db.settings {
        var settings := db.settings[updated.event];
        if settings.scheduleRelease && settings.releaseAt.Some? && settings.releaseAt.value > db.now {
          var delay := settings.releaseAt.value - db.now;
          db.jobs := db.jobs + {TicketJob(a.id, a.seat, a.locale, db.now + delay)};
          return Done;
        }
      }
      var _ := confirmation.SendFirstConfirmationOrReserve(a.id, a.seat, a.locale);
      outcome := Done;
    }

    method UpdatePlusOneLimit(id: Id, total: int, active: Option<EventId>) returns (outcome: Outcome)
      modifies db
      ensures Answer(db.View(), outcome) == UpdateLimit(old(db.View()), id, total, active)
    {
      if total < 0 {
        return Threw(InvalidInput);
      }
      if id !in db.rows {
        return Threw(NotFound);
      }
      var invitation := db.rows[id];
      if !ForActiveEvent(invitation, active) {
        return Threw(EventMismatch);
      }
      if invitation.parent.Some? {
        return Threw(InvalidInput);
      }
      var taken := |Children(db.rows, id)|;
      if total < taken {
        return Threw(LimitBelowAssigned);
      }
      db.Update(id, invitation.(maxInvitees := total - taken));
      outcome := Done;
    }

    method DeleteInvitation(id: Id, active: Option<EventId>) returns (outcome: Outcome)
      modifies db
      ensures Answer(db.View(), outcome) == DeleteOne(old(db.View()), id, active)
    {
      if id !in db.rows {
        return Threw(NotFound);
      }
      if !ForActiveEvent(db.rows[id], active) {
        return Threw(EventMismatch);
      }
      db.Delete({id});
      outcome := Done;
    }

    /** One transaction: the first id that is missing or belongs elsewhere takes everything back. */
    method DeleteMany(ids: seq<Id>, active: Option<EventId>) returns (outcome: Outcome)
      modifies db
      ensures Answer(db.View(), outcome) == Operations.DeleteMany(old(db.View()), ids, active)
    {
      if |ids| == 0 {
        return Threw(InvalidInput);
      }
      var before := db.rows;
      for i := 0 to |ids|
        invariant db.View() == old(db.View()).(rows := db.rows)
        invariant DeleteEach(before, ids, active) == DeleteEach(db.rows, ids[i..], active)
        invariant DeleteEach(before, ids, active).None? ==>
          DeleteManyError(before, ids, active) == DeleteManyError(db.rows, ids[i..], active)
      {
        assert ids[i..][0] == ids[i] && ids[i..][1..] == ids[i + 1..];
        if ids[i] !in db.rows {
          db.rows := before;
          return Threw(NotFound);
        }
        if !ForActiveEvent(db.rows[ids[i]], active) {
          db.rows := before;
          return Threw(EventMismatch);
        }
        db.Delete({ids[i]});
      }
      outcome := Done;
    }

    /**
     All rows are checked before the transaction that writes them.  Whether the batch is refused does not depend on
     the order in which the query returns its rows; which of the two errors is reported does.
     */
    method BulkStage(ids: seq<Id>, staged: bool, active: Option<EventId>)
      returns (outcome: Outcome, ghost order: seq<Id>)
      modifies db
      ensures var answer := Stage(old(db.View()), AsSet(ids), staged, active);
        && db.View() == answer.state
        && (outcome == Done <==> answer.outcome == Done)
      ensures Lists(order, AsSet(ids) * old(db.rows).Keys)
      ensures outcome == if !(AsSet(ids) <= old(db.rows).Keys) then Threw(InvalidInput)
                         else match FirstStageError(old(db.rows), order, staged, active)
                              case Some(error) => Threw(error)
                              case None => Done
    {
      var unique := AsSet(ids);
      var invitations := db.InSomeOrder(unique * db.rows.Keys);
      order := invitations;
      if unique * db.rows.Keys != unique {
        return Threw(InvalidInput), order;
      }
      assert unique <= db.rows.Keys;
      for i := 0 to |invitations|
        invariant forall k | 0 <= k < i :: MayChangeStage(db.rows[invitations[k]], staged, active)
        invariant FirstStageError(db.rows, invitations, staged, active)
               == FirstStageError(db.rows, invitations[i..], staged, active)
      {
        assert invitations[i..][0] == invitations[i] && invitations[i..][1..] == invitations[i + 1..];
        var invitation := db.rows[invitations[i]];
        if !ForActiveEvent(invitation, active) {
          return Threw(EventMismatch), order;
        }
        var canStage := invitation.status.PENDING? || invitation.status.ACCEPTED?;
        var canUnstage := invitation.status.APPROVAL_STAGED?;
        if (staged && !canStage) || (!staged && !canUnstage) {
          return Threw(CannotChangeStage), order;
        }
      }
      WriteStages(invitations, staged);
      ListedCount(invitations, unique);
      outcome := Done;
    }

    /** The transaction of a batch. */
    method WriteStages(ids: seq<Id>, staged: bool)
      requires forall k | 0 <= k < |ids| :: ids[k] in db.rows
      requires forall i, j :: 0 <= i < j < |ids| ==> ids[i] != ids[j]
      modifies db
      ensures db.View() == old(db.View()).(rows := StageCommit(old(db.rows), AsSet(ids), staged))
    {
      ghost var before := db.View();
      for i := 0 to |ids|
        invariant db.View() == before.(rows := StageCommit(before.rows, AsSet(ids[..i]), staged))
      {
        assert AsSet(ids[..i + 1]) == AsSet(ids[..i]) + {ids[i]};
        assert ids[i] !in ids[..i];
        var r := db.rows[ids[i]];
        db.Update(ids[i], r.(status :=
          if staged then APPROVAL_STAGED else if r.choice == Some(YES) then ACCEPTED else PENDING));
      }
      assert ids[..|ids|] == ids;
    }

    /**
     A file with a missing name is refused as a whole.  Otherwise the new names are inserted, one transaction each;
     the insert for line `failsAt` throws, and what was stored before it stays.
     */
    method ImportInvitations(event: EventId, lines: seq<Line>, actor: UserId, failsAt: nat)
      returns (result: Option<FileResult>)
      modifies db
      ensures var keys, total := KeysOf(old(db.rows), event), |lines|;
        if MissingFields(lines) != [] then
          result == Some(FileResult(total, 0, total, [], MissingFields(lines))) && db.View() == old(db.View())
        else if failsAt < total && IsNew(keys, lines, failsAt) then
          result == None && db.View() == Imported(old(db.View()), event, actor, Kept(keys, lines[..failsAt]))
        else
          var kept := Kept(keys, lines);
          && result == Some(FileResult(total, |kept|, total - |kept|, Duplicates(keys, lines), []))
          && db.View() == Imported(old(db.View()), event, actor, kept)
    {
      hide InsertAll;
      hide Kept;
      hide Duplicates;
      hide KeysAfter;
      hide KeysOf;
      hide Imported;
      hide Trim;
      hide IsNew;
      var errors := Validate(lines);
      if |errors| > 0 {
        return Some(FileResult(|lines|, 0, |lines|, [], errors));
      }
      var keys := KeysOf(db.rows, event);
      var existing, imported, duplicates := keys, 0, [];
      NoLines(db.View(), event, actor, keys);
      assert lines[..0] == [];
      for i := 0 to |lines|
        invariant failsAt < i ==> !IsNew(keys, lines, failsAt)
        invariant existing == KeysAfter(keys, lines[..i])
        invariant imported == |Kept(keys, lines[..i])| && duplicates == Duplicates(keys, lines[..i])
        invariant db.View() == Imported(old(db.View()), event, actor, Kept(keys, lines[..i]))
      {
        var firstName, lastName := Trim(lines[i].firstName), Trim(lines[i].lastName);
        var key := KeyOf(firstName, lastName);
        OneMoreLine(keys, lines, i);
        if key in existing {
          duplicates := duplicates + [firstName + " " + lastName];
          continue;
        }
        if i == failsAt {
          return None;
        }
        var row := BlankRow(PRIVATE, event, firstName, lastName).(
          maxInvitees := lines[i].maxPlusOnes, inviter := Some(actor));
        OneMoreImported(old(db.View()), event, actor, Kept(keys, lines[..i]), lines[i]);
        var _ := db.Create(row);
        existing := existing + {key};
        imported := imported + 1;
      }
      assert lines[..|lines|] == lines;
      result := Some(FileResult(|lines|, imported, |lines| - imported, duplicates, []));
    }

    method Validate(lines: seq<Line>) returns (errors: seq<(nat, string)>)
      ensures errors == MissingFields(lines)
    {
      errors := [];
      for i := 0 to |lines|
        invariant errors == MissingFields(lines[..i])
      {
        assert lines[..i + 1][..i] == lines[..i];
        if lines[i].firstName == "" {
          errors := errors + [(i + 2, "firstName")];
        }
        if lines[i].lastName == "" {
          errors := errors + [(i + 2, "lastName")];
        }
      }
      assert lines[..|lines|] == lines;
    }
  }

  /** The running key set decides newness, line by line. */
  lemma OneMoreLine(keys: set<string>, lines: seq<Line>, i: nat)
    requires i < |lines|
    ensures var init, longer := lines[..i], lines[..i + 1];
      && (LineKey(lines[i]) in KeysAfter(keys, init) <==> !IsNew(keys, longer, i))
      && (IsNew(keys, longer, i) <==> IsNew(keys, lines, i))
      && KeysAfter(keys, longer) == KeysAfter(keys, init) + {LineKey(lines[i])}
      && Kept(keys, longer) == (if IsNew(keys, longer, i) then Kept(keys, init) + [lines[i]] else Kept(keys, init))
      && Duplicates(keys, longer)
         == if IsNew(keys, longer, i) then Duplicates(keys, init)
            else Duplicates(keys, init) + [DisplayName(lines[i])]
  {
    var init, longer := lines[..i], lines[..i + 1];
    assert longer[..i] == init && longer == init + [lines[i]];
    KeysOfLast(keys, init, lines[i]);
    if !IsNew(keys, longer, i) {
      KnownKey(keys, longer);
    } else {
      assert forall k | 0 <= k < i :: init[k] == longer[k];
    }
  }

  lemma NoLines(s: State, event: EventId, actor: UserId, keys: set<string>)
    ensures Kept(keys, []) == [] && Duplicates(keys, []) == [] && KeysAfter(keys, []) == keys
    ensures Imported(s, event, actor, []) == s
  {
    InsertNone(s);
    assert LineRows(event, actor, []) == [];
  }

  lemma OneMoreImported(s: State, event: EventId, actor: UserId, kept: seq<Line>, line: Line)
    ensures Insert(Imported(s, event, actor, kept), LineRow(event, actor, line))
         == Imported(s, event, actor, kept + [line])
  {
    InsertAllSnoc(s, LineRows(event, actor, kept), LineRow(event, actor, line));
    assert LineRows(event, actor, kept + [line]) == LineRows(event, actor, kept) + [LineRow(event, actor, line)];
  }
}
