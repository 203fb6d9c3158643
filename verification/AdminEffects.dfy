/**
 The administrators' calls and the messages about guests and events told from
 outside: why each is refused, and what it leaves in the rows.
 */
module AdminEffects {
  import opened Prelude
  import opened Store
  import opened Forest
  import opened Operations
  import opened Imports
  import opened Invariants
  import opened Deletion
  import opened Replies

  // ------------------------------------------------------------ creation

  /** Every column of a created invitation; it is approved upon a YES in the modes AUTO and AUTO_INVITE_ONLY. */
  lemma CreateEnds(s: State, event: Option<EventId>, rec: Record)
    ensures var a := Create(s, event, rec);
      if event == None || rec.maxInvitees < 0 then a == Answer(s, Threw(InvalidInput))
      else if rec.parent.Some? && rec.parent.value !in s.rows then a == Answer(s, Threw(ParentMissing))
      else
        var e := event.value;
        var automatic := e in s.settings && (s.settings[e].approvalMode == AUTO
                                             || s.settings[e].approvalMode == AUTO_INVITE_ONLY);
        a == Answer(
          s.(rows := s.rows[s.nextId :=
               Row(PRIVATE, e, rec.firstName, rec.lastName, automatic,
                   if e in s.settings then s.settings[e].endsAt else None, PENDING, None, None, None, rec.inviter,
                   None, rec.parent, rec.maxInvitees, None, None, None, 0)],
             nextId := s.nextId + 1),
          Done)
  {
  }

  /** A blank private row, as both imports store it. */
  function BlankInvitation(
    event: EventId, firstName: string, lastName: string, inviter: Option<UserId>, parent: Option<Id>,
    places: int): Row
  {
    Row(PRIVATE, event, firstName, lastName, false, None, PENDING, None, None, None, inviter, None, parent, places,
        None, None, None, 0)
  }

  /** `count` rows were appended under the next ids, and nothing else changed. */
  ghost predicate Appended(s: State, t: State, count: nat) {
    && t == s.(rows := t.rows, nextId := s.nextId + count)
    && (forall id :: id in t.rows <==> id in s.rows || s.nextId <= id < s.nextId + count)
    && (forall id | id in s.rows :: t.rows[id] == s.rows[id])
  }

  lemma InsertAllAppends(s: State, rs: seq<Row>)
    requires StoreInv(s)
    ensures Appended(s, InsertAll(s, rs), |rs|)
    ensures forall i | 0 <= i < |rs| ::
      s.nextId + i in InsertAll(s, rs).rows && InsertAll(s, rs).rows[s.nextId + i] == rs[i]
  {
    IdsAreOld(s);
    hide Sound;
    forall i | 0 <= i < |rs|
      ensures s.nextId + i in InsertAll(s, rs).rows && InsertAll(s, rs).rows[s.nextId + i] == rs[i]
    {
      InsertedAt(s, rs, i);
    }
  }

  /** An import of records needs each parent to be stored, or to come earlier in the same import; else it is refused. */
  lemma ImportManyOutcome(s: State, records: seq<Record>)
    ensures var a := ImportMany(s, records);
      && (a.outcome == Done || a == Answer(s, Threw(ParentMissing)))
      && (a.outcome == Done <==>
            forall i | 0 <= i < |records| && records[i].parent.Some? ::
              records[i].parent.value in s.rows || s.nextId <= records[i].parent.value < s.nextId + i)
  {
    hide InsertAll;
    hide RecordRows;
  }

  /** It then stores every record, in order. */
  lemma ImportManyStores(s: State, records: seq<Record>)
    requires StoreInv(s) && ImportMany(s, records).outcome == Done
    ensures var t := ImportMany(s, records).state;
      && Appended(s, t, |records|)
      && forall i | 0 <= i < |records| ::
           t.rows[s.nextId + i]
           == BlankInvitation(records[i].event, records[i].firstName, records[i].lastName, None,
                              records[i].parent, records[i].maxInvitees)
  {
    hide ParentsExist;
    hide InsertAll;
    InsertAllAppends(s, RecordRows(records));
    forall i | 0 <= i < |records|
      ensures RecordRows(records)[i]
           == BlankInvitation(records[i].event, records[i].firstName, records[i].lastName, None, records[i].parent,
                              records[i].maxInvitees)
    {
    }
    assert |RecordRows(records)| == |records|;
    hide RecordRows;
    hide BlankInvitation;
    hide Sound;
  }

  // ------------------------------------------------------------ guest lists

  predicate IsBlank(c: char) {
    c == ' ' || c == '\t' || c == '\n' || c == '\r'
  }

  /** `text` is `core` between blanks, and `core` does not begin or end with one. */
  ghost predicate IsCore(text: string, core: string) {
    && (core == "" || (!IsBlank(core[0]) && !IsBlank(core[|core| - 1])))
    && exists i :: 0 <= i <= |text| - |core| && BlankAround(text, core, i)
  }

  predicate BlankAround(text: string, core: string, i: nat)
    requires i + |core| <= |text|
  {
    && text[i..i + |core|] == core
    && (forall k | 0 <= k < i :: IsBlank(text[k]))
    && (forall k | i + |core| <= k < |text| :: IsBlank(text[k]))
  }

  lemma {:induction false} StartTrimmed(text: string)
    ensures var rest := TrimStart(text);
      && |rest| <= |text| && rest == text[|text| - |rest|..]
      && (rest == "" || !IsBlank(rest[0]))
      && (forall k | 0 <= k < |text| - |rest| :: IsBlank(text[k]))
    decreases |text|
  {
    if text != "" && IsSpace(text[0]) {
      var tail := text[1..];
      StartTrimmed(tail);
      var rest := TrimStart(tail);
      assert TrimStart(text) == rest && text[|text| - |rest|..] == tail[|tail| - |rest|..];
      hide TrimStart;
      forall k | 0 <= k < |text| - |rest| ensures IsBlank(text[k]) {
        assert k > 0 ==> text[k] == tail[k - 1];
      }
    } else {
      assert TrimStart(text) == text;
    }
  }

  lemma {:induction false} EndTrimmed(text: string)
    ensures var rest := TrimEnd(text);
      && |rest| <= |text| && rest == text[..|rest|]
      && (rest == "" || !IsBlank(rest[|rest| - 1]))
      && (forall k | |rest| <= k < |text| :: IsBlank(text[k]))
    decreases |text|
  {
    if text != "" && IsSpace(text[|text| - 1]) {
      var init := text[..|text| - 1];
      EndTrimmed(init);
      var rest := TrimEnd(init);
      assert TrimEnd(text) == rest && text[..|rest|] == init[..|rest|];
      hide TrimEnd;
      forall k | |rest| <= k < |text| ensures IsBlank(text[k]) {
        assert k < |init| ==> text[k] == init[k];
      }
    } else {
      assert TrimEnd(text) == text;
    }
  }

  /** Trimming takes the blanks off both ends and nothing else. */
  lemma TrimFindsTheCore(text: string)
    ensures IsCore(text, Trim(text))
  {
    var rest := TrimStart(text);
    var core := TrimEnd(rest);
    StartTrimmed(text);
    EndTrimmed(rest);
    var i := |text| - |rest|;
    assert BlankAround(text, core, i) by {
      forall k | i + |core| <= k < |text| ensures IsBlank(text[k]) {
        assert text[k] == rest[k - i];
      }
    }
  }

  /** Each kept line becomes a blank row of the event, with trimmed names, the line's number and the importer. */
  lemma ImportStores(s: State, event: EventId, actor: UserId, kept: seq<Line>)
    requires StoreInv(s)
    ensures var t := Imported(s, event, actor, kept);
      && Appended(s, t, |kept|)
      && forall i | 0 <= i < |kept| ::
           t.rows[s.nextId + i]
           == BlankInvitation(event, Trim(kept[i].firstName), Trim(kept[i].lastName), Some(actor), None,
                              kept[i].maxPlusOnes)
  {
    hide InsertAll;
    hide Trim;
    InsertAllAppends(s, LineRows(event, actor, kept));
    forall i | 0 <= i < |kept|
      ensures LineRows(event, actor, kept)[i]
           == BlankInvitation(event, Trim(kept[i].firstName), Trim(kept[i].lastName), Some(actor), None,
                              kept[i].maxPlusOnes)
    {
    }
    assert |LineRows(event, actor, kept)| == |kept|;
    hide LineRows;
    hide BlankInvitation;
    hide Sound;
  }

  /** The report names exactly the fields that are empty, each with its line's place in the file below the header. */
  lemma {:induction false} FieldsReported(lines: seq<Line>, at: nat, field: string)
    ensures (at, field) in MissingFields(lines)
      <==> 2 <= at < |lines| + 2
           && ((field == "firstName" && lines[at - 2].firstName == "")
               || (field == "lastName" && lines[at - 2].lastName == ""))
    decreases |lines|
  {
    if lines != [] {
      FieldsReported(lines[..|lines| - 1], at, field);
    }
  }

  /** Line `k` has that name, and its key was taken before it. */
  predicate NamesDuplicate(keys: set<string>, lines: seq<Line>, k: nat, name: string) {
    k < |lines| && IsKnown(keys, lines, k) && name == FullName(lines[k])
  }

  lemma SameInPrefix(keys: set<string>, lines: seq<Line>, n: nat, name: string)
    requires n <= |lines|
    ensures forall k: nat | k < n :: NamesDuplicate(keys, lines[..n], k, name) == NamesDuplicate(keys, lines, k, name)
  {
    forall k: nat | k < n
      ensures NamesDuplicate(keys, lines[..n], k, name) == NamesDuplicate(keys, lines, k, name)
    {
      assert IsKnown(keys, lines[..n], k) == IsKnown(keys, lines, k);
      hide IsKnown;
      hide FullName;
    }
  }

  /** The duplicates are the names of exactly those lines whose key was taken before them. */
  lemma {:induction false} DuplicatesReported(keys: set<string>, lines: seq<Line>, name: string)
    ensures name in Duplicates(keys, lines) <==> exists k: nat :: NamesDuplicate(keys, lines, k, name)
    decreases |lines|
  {
    if lines != [] {
      var n := |lines| - 1;
      DuplicatesReported(keys, lines[..n], name);
      LastDuplicate(keys, lines, name);
      SameInPrefix(keys, lines, n, name);
      assert NamesDuplicate(keys, lines, n, name) == (IsKnown(keys, lines, n) && name == FullName(lines[n]));
      InPrefix(keys, lines, n, name);
      hide IsKnown;
      hide FullName;
      hide Duplicates;
    }
  }

  lemma InPrefix(keys: set<string>, lines: seq<Line>, n: nat, name: string)
    requires n == |lines| - 1
    ensures (exists k: nat :: NamesDuplicate(keys, lines, k, name))
      <==> (exists k: nat :: NamesDuplicate(keys, lines[..n], k, name)) || NamesDuplicate(keys, lines, n, name)
  {
    SameInPrefix(keys, lines, n, name);
    if k: nat :| NamesDuplicate(keys, lines[..n], k, name) {
      assert k < n;
      assert NamesDuplicate(keys, lines, k, name);
    }
    hide IsKnown;
    hide FullName;
  }

  lemma LastDuplicate(keys: set<string>, lines: seq<Line>, name: string)
    requires lines != []
    ensures var n := |lines| - 1;
      name in Duplicates(keys, lines)
      <==> name in Duplicates(keys, lines[..n]) || (IsKnown(keys, lines, n) && name == FullName(lines[n]))
  {
    var n := |lines| - 1;
    assert IsKnown(keys, lines, n) == !IsNew(keys, lines, n);
    hide Trim;
    hide IsKnown;
    hide IsNew;
  }

  function FullName(line: Line): string {
    Trim(line.firstName) + " " + Trim(line.lastName)
  }

  /** The name, joined by a hyphen, is in use or joined alike in an earlier line. */
  predicate IsKnown(keys: set<string>, lines: seq<Line>, k: nat)
    requires k < |lines|
  {
    var key := Trim(lines[k].firstName) + "-" + Trim(lines[k].lastName);
    key in keys || exists j :: 0 <= j < k && Trim(lines[j].firstName) + "-" + Trim(lines[j].lastName) == key
  }

  // ------------------------------------------------------------ limits, staging

  /** The total granted to a root row of the active event, less its present children, is what it has left. */
  lemma UpdateLimitEnds(s: State, id: Id, total: int, active: Option<EventId>)
    ensures var a := UpdateLimit(s, id, total, active);
      var kids := set i | i in s.rows && s.rows[i].parent == Some(id);
      if total < 0 then a == Answer(s, Threw(InvalidInput))
      else if id !in s.rows then a == Answer(s, Threw(NotFound))
      else if active != Some(s.rows[id].event) then a == Answer(s, Threw(EventMismatch))
      else if s.rows[id].parent != None then a == Answer(s, Threw(InvalidInput))
      else if total < |kids| then a == Answer(s, Threw(LimitBelowAssigned))
      else a == Answer(s.(rows := s.rows[id := s.rows[id].(maxInvitees := total - |kids|)]), Done)
  {
    assert Children(s.rows, id) == set i | i in s.rows && s.rows[i].parent == Some(id);
  }

  /** Staging marks every row of the batch; unstaging makes a row ACCEPTED if it holds a YES, and else PENDING. */
  lemma StageEffect(s: State, ids: set<Id>, staged: bool, active: Option<EventId>)
    requires Stage(s, ids, staged, active).outcome == Done
    ensures var t := Stage(s, ids, staged, active).state;
      && t == s.(rows := t.rows) && t.rows.Keys == s.rows.Keys
      && forall id | id in s.rows ::
           t.rows[id] == if id !in ids then s.rows[id]
                         else if staged then s.rows[id].(status := APPROVAL_STAGED)
                         else if s.rows[id].choice == Some(YES) then s.rows[id].(status := ACCEPTED)
                         else s.rows[id].(status := PENDING)
  {
  }

  /** The row may be staged, or unstaged, by a caller in its event. */
  predicate IsFine(r: Row, staged: bool, active: Option<EventId>) {
    && active == Some(r.event)
    && if staged then r.status == PENDING || r.status == ACCEPTED else r.status == APPROVAL_STAGED
  }

  /** The rows of a batch are checked in the order the query gave them, and the first that is not fine decides. */
  lemma {:induction false} FirstStageFailure(rows: Rows, order: seq<Id>, staged: bool, active: Option<EventId>)
    requires forall k | 0 <= k < |order| :: order[k] in rows
    ensures var e := FirstStageError(rows, order, staged, active);
      && (e == None <==> forall k | 0 <= k < |order| :: IsFine(rows[order[k]], staged, active))
      && (e.Some? ==> exists k :: 0 <= k < |order| && StageFailsAt(rows, order, k, staged, active, e.value))
    decreases |order|
  {
    if order != [] && IsFine(rows[order[0]], staged, active) {
      var rest := order[1..];
      FirstStageFailure(rows, rest, staged, active);
      var e := FirstStageError(rows, rest, staged, active);
      if e.Some? {
        var k :| 0 <= k < |rest| && StageFailsAt(rows, rest, k, staged, active, e.value);
        assert order[k + 1] == rest[k];
        forall i | 0 <= i < k + 1 ensures order[i] in rows && IsFine(rows[order[i]], staged, active) {
          assert i > 0 ==> order[i] == rest[i - 1];
        }
        assert StageFailsAt(rows, order, k + 1, staged, active, e.value);
      } else {
        forall k | 0 <= k < |order| ensures IsFine(rows[order[k]], staged, active) {
          assert k > 0 ==> order[k] == rest[k - 1];
        }
      }
    } else if order != [] {
      assert StageFailsAt(rows, order, 0, staged, active, FirstStageError(rows, order, staged, active).value);
    }
  }

  ghost predicate StageFailsAt(
    rows: Rows, order: seq<Id>, k: nat, staged: bool, active: Option<EventId>, e: Error)
    requires k < |order|
  {
    && (forall i | 0 <= i < k :: order[i] in rows && IsFine(rows[order[i]], staged, active))
    && order[k] in rows && !IsFine(rows[order[k]], staged, active)
    && e == if active != Some(rows[order[k]].event) then EventMismatch else CannotChangeStage
  }

  // ------------------------------------------------------------ deletion

  /** These rows and everyone under one of them are gone, and nothing else changed. */
  ghost predicate GoneWith(s: State, t: State, goes: Id -> bool) {
    && t == s.(rows := t.rows)
    && (forall id | id in t.rows :: id in s.rows && t.rows[id] == s.rows[id])
    && (forall id | id in s.rows ::
          id !in t.rows <==> exists root :: root in s.rows && goes(root) && Under(s.rows, id, {root}))
  }

  lemma {:induction false} UnderOne(rows: Rows, id: Id, roots: set<Id>)
    ensures Under(rows, id, roots) <==> exists root :: root in rows && root in roots && Under(rows, id, {root})
    decreases id
  {
    if id in rows && rows[id].parent.Some? && rows[id].parent.value < id {
      UnderOne(rows, rows[id].parent.value, roots);
    }
    if root :| root in rows && root in roots && Under(rows, id, {root}) {
      UnderMonotone(rows, id, {root}, roots);
    }
    if id in rows && id in roots {
      assert Under(rows, id, {id});
    }
  }

  lemma CascadeGoes(s: State, roots: set<Id>, goes: Id -> bool)
    requires forall id | id in s.rows :: id in roots <==> goes(id)
    ensures GoneWith(s, s.(rows := Cascade(s.rows, roots)), goes)
  {
    forall id ensures Under(s.rows, id, roots) <==>
      exists root :: root in s.rows && root in roots && Under(s.rows, id, {root})
    {
      UnderOne(s.rows, id, roots);
    }
  }

  lemma DeleteOneEnds(s: State, id: Id, active: Option<EventId>)
    ensures var a := DeleteOne(s, id, active);
      if id !in s.rows then a == Answer(s, Threw(NotFound))
      else if active != Some(s.rows[id].event) then a == Answer(s, Threw(EventMismatch))
      else a.outcome == Done && GoneWith(s, a.state, root => root == id)
  {
    CascadeGoes(s, {id}, root => root == id);
    hide GoneWith;
    hide Cascade;
  }

  /** A bulk delete that succeeds takes exactly the listed rows and those under them. */
  lemma DeleteManyEffect(s: State, ids: seq<Id>, active: Option<EventId>)
    requires DeleteMany(s, ids, active).outcome == Done
    ensures GoneWith(s, DeleteMany(s, ids, active).state, root => root in ids)
  {
    DeleteManyIsAllOrNothing(s, ids, active);
    CascadeGoes(s, AsSet(ids), root => root in ids);
    hide GoneWith;
    hide Cascade;
    hide CleanList;
  }

  /** The ids before `k` can be deleted; the one at `k` went with one of them, never was, or is of another event. */
  ghost predicate FailsAt(rows: Rows, ids: seq<Id>, k: nat, active: Option<EventId>, e: Error)
    requires k < |ids|
  {
    && CleanList(rows, ids[..k], active)
    && if ids[k] !in rows || exists i :: 0 <= i < k && Under(rows, ids[k], {ids[i]}) then e == NotFound
       else e == EventMismatch && active != Some(rows[ids[k]].event)
  }

  lemma {:induction false} FirstFailure(rows: Rows, ids: seq<Id>, active: Option<EventId>)
    requires DeleteEach(rows, ids, active).None?
    ensures exists k :: 0 <= k < |ids| && FailsAt(rows, ids, k, active, DeleteManyError(rows, ids, active))
    decreases |ids|
  {
    var e := DeleteManyError(rows, ids, active);
    if ids[0] in rows && active == Some(rows[ids[0]].event) {
      var left, tail := Cascade(rows, {ids[0]}), ids[1..];
      FirstFailure(left, tail, active);
      var k :| 0 <= k < |tail| && FailsAt(left, tail, k, active, e);
      FailsLater(rows, ids, k, active, e);
      assert FailsAt(rows, ids, k + 1, active, e);
    } else {
      assert FailsAt(rows, ids, 0, active, e);
    }
  }

  lemma FailsLater(rows: Rows, ids: seq<Id>, k: nat, active: Option<EventId>, e: Error)
    requires ids != [] && Deletable(rows, ids[0], active) && k < |ids| - 1
    requires FailsAt(Cascade(rows, {ids[0]}), ids[1..], k, active, e)
    ensures FailsAt(rows, ids, k + 1, active, e)
  {
    var left, tail, id := Cascade(rows, {ids[0]}), ids[1..], ids[k + 1];
    assert ids[..k + 1][1..] == tail[..k] && ids[..k + 1][0] == ids[0];
    TailIsClean(rows, ids[..k + 1], active);
    hide CleanList;
    forall i | 0 <= i < k ensures ids[i + 1] == tail[i] {}
    if id in left {
      forall i | 0 <= i < k ensures Under(left, id, {tail[i]}) <==> Under(rows, id, {ids[i + 1]}) {
        SurvivorsKeepAncestors(rows, id, {ids[0]}, {tail[i]});
      }
      if i :| 0 <= i < k && Under(left, id, {tail[i]}) {
        assert Under(rows, id, {ids[i + 1]});
      }
      if i :| 0 <= i < k + 1 && Under(rows, id, {ids[i]}) {
        assert i > 0 && Under(left, id, {tail[i - 1]});
      }
    } else if id in rows {
      assert Under(rows, id, {ids[0]});
    }
  }

  /** A bulk delete that fails changes nothing and gives the reason of the first id that fails. */
  lemma DeleteManyFails(s: State, ids: seq<Id>, active: Option<EventId>)
    ensures var a := DeleteMany(s, ids, active);
      && (ids == [] ==> a == Answer(s, Threw(InvalidInput)))
      && (ids != [] && a.outcome != Done ==>
            a.state == s && a.outcome.Threw?
            && exists k :: 0 <= k < |ids| && FailsAt(s.rows, ids, k, active, a.outcome.error))
  {
    if ids != [] && DeleteEach(s.rows, ids, active).None? {
      FirstFailure(s.rows, ids, active);
    }
    hide FailsAt;
  }

  /** A guest's deletion takes exactly the rows linked to it and those under them. */
  lemma DeleteByGuestEffect(s: State, user: UserId)
    ensures GoneWith(s, DeleteIds(s, IdsOfGuest(s.rows, user)),
                     root => root in s.rows && s.rows[root].guest == Some(user))
  {
    CascadeGoes(s, IdsOfGuest(s.rows, user), root => root in s.rows && s.rows[root].guest == Some(user));
    hide GoneWith;
    hide Cascade;
  }

  /** The deletion of events takes exactly their rows and those under them. */
  lemma DeleteByEventsEffect(s: State, events: set<EventId>)
    ensures GoneWith(s, DeleteIds(s, IdsOfEvents(s.rows, events)),
                     root => root in s.rows && s.rows[root].event in events)
  {
    CascadeGoes(s, IdsOfEvents(s.rows, events), root => root in s.rows && s.rows[root].event in events);
    hide GoneWith;
    hide Cascade;
  }

  /** A link stores the user in that row, whoever was there before, and records it; nothing else changes. */
  lemma LinkEnds(s: State, id: Id, user: UserId)
    ensures LinkGuest(s, id, user)
         == if id !in s.rows then Answer(s, Threw(NotFound))
            else Answer(s.(rows := s.rows[id := s.rows[id].(guest := Some(user))], log := s.log + [GuestLinked(id)]),
                        Done)
  {
  }

  /**
   Linking a user and then deleting it takes the newly linked row, the rows it was linked to before, and everyone under
   one of them, and no other row.
   */
  lemma LinkThenDelete(s: State, id: Id, user: UserId, row: Id)
    requires id in s.rows && row in s.rows
    ensures var linked := LinkGuest(s, id, user).state;
      row !in DeleteIds(linked, IdsOfGuest(linked.rows, user)).rows
      <==> exists root :: root in s.rows && (root == id || s.rows[root].guest == Some(user))
                        && Under(s.rows, row, {root})
  {
    var linked := LinkGuest(s, id, user).state;
    var roots := IdsOfGuest(linked.rows, user);
    assert forall root :: root in roots <==> root in s.rows && (root == id || s.rows[root].guest == Some(user));
    UnderSamePointers(s.rows, linked.rows, row, roots);
    UnderOne(s.rows, row, roots);
    hide IdsOfGuest;
  }
}
