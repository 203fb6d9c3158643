/** `InvitationWriteService` as it runs, proved against `Operations` and `Forest`. */
module InvitationWriteService {
  import opened Prelude
  import opened Store
  import opened Forest
  import opened Operations
  import opened Invariants
  import opened Deletion
  import opened Platform

  class InvitationWriteService {
    const db: Backend

    constructor (db: Backend)
      ensures this.db == db
    {
      this.db := db;
    }

    /** One transaction: a record whose parent does not exist yet takes everything back. */
    method ImportMany(records: seq<Record>) returns (outcome: Outcome)
      modifies db
      ensures Answer(db.View(), outcome) == Operations.ImportMany(old(db.View()), records)
    {
      hide InsertAll;
      hide ParentsExist;
      hide RecordRows;
      var rows, nextId := db.rows, db.nextId;
      ghost var before := db.View();
      InsertNone(before);
      NoRecords(before, records);
      for i := 0 to |records|
        invariant ParentsExist(before, records[..i])
        invariant db.View() == InsertAll(before, RecordRows(records[..i]))
      {
        var rec := records[i];
        OneMoreImport(before, records, i);
        if rec.parent.Some? && rec.parent.value !in db.rows {
          db.rows, db.nextId := rows, nextId;
          assert db.View() == before by {
            ImportTouchesRows(before, RecordRows(records[..i]));
          }
          return Threw(ParentMissing);
        }
        var _ := db.Create(BlankRow(PRIVATE, rec.event, rec.firstName, rec.lastName).(
          maxInvitees := rec.maxInvitees, parent := rec.parent));
      }
      assert records[..|records|] == records;
      outcome := Done;
    }

    /**
     Level by level, with no check for rows already seen: it ends because children are younger
     than their parents, and it finds the roots and everything under them, no matter whether
     one root is below another.
     */
    method CollectInvitationTree(roots: set<Id>) returns (all: set<Id>)
      requires IsForest(db.rows, db.nextId)
      ensures all == Closure(db.rows, roots) + roots
    {
      all := roots;
      var queue := roots;
      ghost var level := 0;
      while queue != {}
        invariant level > 0 ==> queue <= db.rows.Keys
        invariant forall id | id in queue :: id >= level
        invariant roots <= all && queue <= all <= Closure(db.rows, roots) + roots
        invariant forall id | id in db.rows && db.rows[id].parent.Some? && db.rows[id].parent.value in all - queue ::
          id in all
        decreases db.nextId + 2 - level
      {
        ghost var seen := all;
        var children := set id | id in db.rows && db.rows[id].parent.Some? && db.rows[id].parent.value in queue;
        forall id | id in children ensures Under(db.rows, id, roots) && id > level {
          assert db.rows[id].parent.value in Closure(db.rows, roots) + roots;
        }
        if level > 0 {
          var id :| id in queue;
          assert level <= id < db.nextId;
        }
        all := all + children;
        queue := children;
        level := level + 1;
      }
      ClosureIsLeast(db.rows, db.nextId, roots, all);
    }

    method DeleteByGuestId(guest: UserId)
      requires IsForest(db.rows, db.nextId)
      modifies db
      ensures db.View() == DeleteIds(old(db.View()), IdsOfGuest(old(db.rows), guest))
      ensures IsForest(db.rows, db.nextId)
    {
      var roots := IdsOfGuest(db.rows, guest);
      DeletingTheTree(db.rows, db.nextId, roots);
      if roots == {} {
        NothingUnderNothing(db.rows);
        return;
      }
      var ids := CollectInvitationTree(roots);
      assert ids == Closure(db.rows, roots) by {
        forall id | id in roots ensures id in Closure(db.rows, roots) {
          assert Under(db.rows, id, roots);
        }
      }
      db.Delete(ids);
    }

    method DeleteByEventIds(events: set<EventId>)
      modifies db
      ensures db.View() == DeleteIds(old(db.View()), IdsOfEvents(old(db.rows), events))
    {
      if events == {} {
        NothingUnderNothing(db.rows);
        assert IdsOfEvents(db.rows, events) == {};
        return;
      }
      db.Delete(IdsOfEvents(db.rows, events));
    }

    method AddGuestId(id: Id, user: UserId) returns (outcome: Outcome)
      modifies db
      ensures Answer(db.View(), outcome) == LinkGuest(old(db.View()), id, user)
    {
      if id !in db.rows {
        return Threw(NotFound);
      }
      db.Update(id, db.rows[id].(guest := Some(user)));
      db.Send(GuestLinked(id));
      outcome := Done;
    }
  }

  lemma NoRecords(s: State, records: seq<Record>)
    ensures RecordRows(records[..0]) == [] && ParentsExist(s, records[..0])
  {
  }

  lemma ImportTouchesRows(s: State, rs: seq<Row>)
    ensures InsertAll(s, rs).(rows := s.rows, nextId := s.nextId) == s
  {
  }

  lemma KnownIds(s: State, rs: seq<Row>, id: Id)
    ensures id in InsertAll(s, rs).rows <==> id in s.rows || s.nextId <= id < s.nextId + |rs|
  {
  }

  /** The foreign key check of the next insert decides whether the records so far still fit. */
  lemma OneMoreImport(s: State, records: seq<Record>, i: nat)
    requires i < |records| && ParentsExist(s, records[..i])
    ensures var known := InsertAll(s, RecordRows(records[..i])).rows;
      ParentsExist(s, records[..i + 1]) <==> records[i].parent.Some? ==> records[i].parent.value in known
    ensures ParentsExist(s, records) ==> ParentsExist(s, records[..i + 1])
    ensures Insert(InsertAll(s, RecordRows(records[..i])), RecordRow(records[i]))
         == InsertAll(s, RecordRows(records[..i + 1]))
  {
    hide InsertAll;
    var longer := records[..i + 1];
    assert RecordRows(longer) == RecordRows(records[..i]) + [RecordRow(records[i])];
    InsertAllSnoc(s, RecordRows(records[..i]), RecordRow(records[i]));
    assert forall k | 0 <= k < i :: longer[k] == records[..i][k];
    assert longer[i] == records[i];
    if records[i].parent.Some? {
      KnownIds(s, RecordRows(records[..i]), records[i].parent.value);
    }
  }
}
