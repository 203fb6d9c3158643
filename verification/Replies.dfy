/**
 What an accepted reply and a public RSVP bring into the store, described row by
 row instead of write by write; and the answers of all reachable rows.
 */
module Replies {
  import opened Prelude
  import opened Store
  import opened Operations
  import opened System
  import opened Invariants
  import opened Evolution

  /** A row for this person: accepted, under `parent`, without a contact. */
  ghost predicate SeatedAt(rows: Rows, id: Id, person: PlusOne, parent: Id, event: EventId) {
    && id in rows
    && rows[id].firstName == person.firstName && rows[id].lastName == person.lastName
    && rows[id].parent == Some(parent) && rows[id].event == event
    && rows[id].status.ACCEPTED? && HasNoContact(rows[id])
  }

  /** The people sit, in order, in the rows from `first` on. */
  ghost predicate Seated(rows: Rows, first: Id, people: seq<PlusOne>, parent: Id, event: EventId) {
    forall k | 0 <= k < |people| :: SeatedAt(rows, first + k, people[k], parent, event)
  }

  /** The row's payload is also in the cache under a token never used before, and lists `count` ids from `first` on. */
  ghost predicate Anchored(s: State, t: State, id: Id, first: Id, count: nat) {
    && id in t.rows && t.rows[id].pendingId.Some? && t.rows[id].payload.Some?
    && var token, p := t.rows[id].pendingId.value, t.rows[id].payload.value;
    && token !in s.cache && (forall i | i in s.rows :: s.rows[i].pendingId != Some(token))
    && token in t.cache && t.cache[token] == p
    && p.invitation == id && p.firstName == t.rows[id].firstName && p.lastName == t.rows[id].lastName
    && |p.plusOnes| == count && forall k | 0 <= k < count :: p.plusOnes[k] == first + k
  }

  /**
   All that happened between `s` and `t`: the people were seated under `id`, in the new rows from `first` on,
   and the contact of `id` was anchored and names exactly them.
   */
  ghost predicate Brought(s: State, t: State, id: Id, first: Id, people: seq<PlusOne>, event: EventId) {
    && t.rows.Keys == s.rows.Keys + {id} + NewIds(first, |people|)
    && Seated(t.rows, first, people, id, event)
    && Anchored(s, t, id, first, |people|)
    && (forall i | i in s.rows && i != id :: t.rows[i] == s.rows[i])
  }

  lemma IdsAreOld(s: State)
    requires StoreInv(s)
    ensures forall i | i in s.rows :: i < s.nextId
  {
  }

  lemma Inserted(s: State, rs: seq<Row>)
    ensures var t := InsertAll(s, rs);
      t.rows.Keys == s.rows.Keys + NewIds(s.nextId, |rs|) && t.cache == s.cache && t.nextToken == s.nextToken
  {
  }

  lemma OnePerPerson(kind: Kind, event: EventId, parent: Id, people: seq<PlusOne>, now: int)
    ensures |AcceptedChildren(kind, event, parent, people, now)| == |people|
  {
  }

  lemma SeatedChildren(s: State, kind: Kind, event: EventId, parent: Id, people: seq<PlusOne>)
    ensures Seated(InsertAll(s, AcceptedChildren(kind, event, parent, people, s.now)).rows,
                   s.nextId, people, parent, event)
  {
  }

  /** Rewriting a row that is not one of the children leaves them seated. */
  lemma SeatedElsewhere(rows: Rows, first: Id, people: seq<PlusOne>, parent: Id, event: EventId, id: Id, r: Row)
    requires Seated(rows, first, people, parent, event) && id < first
    ensures Seated(rows[id := r], first, people, parent, event)
  {
  }

  lemma AnchoredNow(s: State, u: State, id: Id, r: Row, p: Payload, first: Id, count: nat)
    requires StoreInv(s) && u.cache == s.cache && u.nextToken == s.nextToken
    requires p.invitation == id && p.firstName == r.firstName && p.lastName == r.lastName
    requires p.plusOnes == IdsFrom(first, count)
    ensures Anchored(s, Anchor(u, id, r, p), id, first, count)
  {
  }

  lemma PlacesOf(r: Row, call: ReplyCall)
    requires call.choice.YES? && call.details.Some?
    ensures var list, n := call.details.value.plusOnes, |AllowedPlusOnes(r, call)|;
      && AllowedPlusOnes(r, call) == list[..n]
      && n == (if r.maxInvitees >= |list| then |list| else if r.maxInvitees >= 0 then r.maxInvitees
               else if -r.maxInvitees <= |list| then |list| + r.maxInvitees else 0)
  {
  }

  lemma KeysBrought(rows: Rows, id: Id, r: Row, more: set<Id>)
    ensures rows[id := r].Keys + more == rows.Keys + {id} + more
  {
  }

  /** New children under `id`, then the contact anchored in `id`'s own row. */
  lemma ChildrenThenAnchor(
    s: State, u: State, id: Id, r: Row, p: Payload, kind: Kind, event: EventId, people: seq<PlusOne>)
    requires StoreInv(s) && u.rows == s.rows[id := r] && id < u.nextId && s.nextId <= u.nextId
    requires u.cache == s.cache && u.nextToken == s.nextToken
    requires p.invitation == id && p.firstName == r.firstName && p.lastName == r.lastName
    requires p.plusOnes == IdsFrom(u.nextId, |people|)
    ensures var t := Anchor(InsertAll(u, AcceptedChildren(kind, event, id, people, u.now)), id, r, p);
      && Brought(s, t, id, u.nextId, people, event)
      && t.rows[id] == r.(pendingId := t.rows[id].pendingId, payload := t.rows[id].payload)
  {
    hide Anchor;
    hide InsertAll;
    hide AcceptedChildren;
    hide Seated;
    hide Anchored;
    hide NewIds;
    hide IdsFrom;
    hide Sound;
    hide Brought;
    var rs := AcceptedChildren(kind, event, id, people, u.now);
    var v := InsertAll(u, rs);
    var t := Anchor(v, id, r, p);
    Inserted(u, rs);
    IdsAreOld(s);
    AnchorShape(v, id, r, p);
    OnePerPerson(kind, event, id, people, u.now);
    SeatedChildren(u, kind, event, id, people);
    SeatedElsewhere(v.rows, u.nextId, people, id, event, id, t.rows[id]);
    AnchoredNow(s, v, id, r, p, u.nextId, |people|);
    OthersStay(s, u, id, r, rs);
    KeysBrought(s.rows, id, r, NewIds(u.nextId, |people|));
    MakeBrought(s, t, id, u.nextId, people, event);
  }

  lemma OthersStay(s: State, u: State, id: Id, r: Row, rs: seq<Row>)
    requires u.rows == s.rows[id := r] && id < u.nextId && s.nextId <= u.nextId
    requires forall i | i in s.rows :: i < s.nextId
    ensures forall i | i in s.rows && i != id :: i in InsertAll(u, rs).rows && InsertAll(u, rs).rows[i] == s.rows[i]
    ensures id in InsertAll(u, rs).rows
  {
  }

  lemma MakeBrought(s: State, t: State, id: Id, first: Id, people: seq<PlusOne>, event: EventId)
    requires t.rows.Keys == s.rows.Keys + {id} + NewIds(first, |people|)
    requires Seated(t.rows, first, people, id, event) && Anchored(s, t, id, first, |people|)
    requires forall i | i in s.rows && i != id :: t.rows[i] == s.rows[i]
    ensures Brought(s, t, id, first, people, event)
  {
    hide Seated;
    hide Anchored;
  }

  lemma AnchorShape(v: State, id: Id, r: Row, p: Payload)
    requires id in v.rows
    ensures var t := Anchor(v, id, r, p);
      && t.rows.Keys == v.rows.Keys && t.rows == v.rows[id := t.rows[id]]
      && t.rows[id] == r.(pendingId := t.rows[id].pendingId, payload := t.rows[id].payload)
      && (forall i | i in v.rows && i != id :: t.rows[i] == v.rows[i])
  {
  }

  lemma ReplyShape(s: State, call: ReplyCall)
    requires ReplyRefusal(s, call).None? && call.choice.YES?
    ensures var r, replied := s.rows[call.id], RepliedRow(s, call);
      var allowed := AllowedPlusOnes(r, call);
      var p := Payload(call.id, replied.firstName, replied.lastName, call.locale, None, IdsFrom(s.nextId, |allowed|));
      && ReplyCommit(s, call)
         == Anchor(InsertAll(Put(s, call.id, replied), AcceptedChildren(PRIVATE, r.event, call.id, allowed, s.now)),
                   call.id, replied, p)
      && replied.choice == Some(YES) && replied.maxInvitees == r.maxInvitees && call.details.Some?
  {
  }

  /**
   A YES brings exactly the first people of the list that the row has places for (a negative number
   of places drops that many from the end), each as a new accepted child; the link's contact names
   exactly these children; and every other row stays as it was.
   */
  lemma YesBringsTheFirstPeople(s: State, call: ReplyCall)
    requires StoreInv(s) && ReplyRefusal(s, call).None? && call.choice.YES?
    ensures var t, r, list := ReplyCommit(s, call), s.rows[call.id], call.details.value.plusOnes;
      var n := |AllowedPlusOnes(r, call)|;
      && n == (if r.maxInvitees >= |list| then |list| else if r.maxInvitees >= 0 then r.maxInvitees
               else if -r.maxInvitees <= |list| then |list| + r.maxInvitees else 0)
      && Brought(s, t, call.id, s.nextId, list[..n], r.event)
      && t.rows[call.id].choice == Some(YES) && t.rows[call.id].maxInvitees == r.maxInvitees
  {
    hide Brought;
    hide Anchor;
    hide InsertAll;
    hide AcceptedChildren;
    hide AllowedPlusOnes;
    hide ReplyCommit;
    hide RepliedRow;
    hide IdsFrom;
    hide Sound;
    ReplyShape(s, call);
    var r, replied := s.rows[call.id], RepliedRow(s, call);
    var allowed := AllowedPlusOnes(r, call);
    var p := Payload(call.id, replied.firstName, replied.lastName, call.locale, None, IdsFrom(s.nextId, |allowed|));
    PlacesOf(r, call);
    IdIsOld(s, call.id);
    ChildrenThenAnchor(s, Put(s, call.id, replied), call.id, replied, p, PRIVATE, r.event, allowed);
  }

  /** A MAYBE or NO brings nobody and leaves contact and other rows alone. */
  lemma OtherAnswersBringNobody(s: State, call: ReplyCall)
    requires StoreInv(s) && ReplyRefusal(s, call).None? && !call.choice.YES?
    ensures var t := ReplyCommit(s, call);
      && t.rows == s.rows[call.id := t.rows[call.id]] && t.cache == s.cache && t.nextId == s.nextId
      && t.rows[call.id].pendingId == s.rows[call.id].pendingId
      && t.rows[call.id].choice == Some(call.choice)
      && t.rows[call.id].status == (if call.choice.NO? then DECLINED else PENDING)
  {
  }

  /** A public RSVP creates the accepted invitee and everyone named with it, all under one fresh contact. */
  lemma PublicBringsEveryone(s: State, call: PublicCall)
    requires StoreInv(s)
    ensures var t := PublicCommit(s, call);
      && Brought(s, t, s.nextId, s.nextId + 1, call.plusOnes, call.event)
      && t.rows[s.nextId].maxInvitees == |call.plusOnes| && t.rows[s.nextId].parent.None?
  {
    hide Brought;
    hide Anchor;
    hide InsertAll;
    hide AcceptedChildren;
    hide PublicCommit;
    hide PublicRow;
    hide IdsFrom;
    hide Sound;
    PublicShape(s, call);
    InsertShape(s, PublicRow(s, call));
    var row := PublicRow(s, call);
    var p := Payload(s.nextId, call.firstName, call.lastName, call.locale, None,
                     IdsFrom(s.nextId + 1, |call.plusOnes|));
    ChildrenThenAnchor(s, Insert(s, row), s.nextId, row, p, PUBLIC, call.event, call.plusOnes);
  }

  lemma InsertShape(s: State, r: Row)
    ensures var u := Insert(s, r);
      && u.rows == s.rows[s.nextId := r] && u.nextId == s.nextId + 1 && u.now == s.now
      && u.cache == s.cache && u.nextToken == s.nextToken
  {
  }

  lemma PublicShape(s: State, call: PublicCall)
    ensures var r := PublicRow(s, call);
      var p := Payload(s.nextId, call.firstName, call.lastName, call.locale, None,
                       IdsFrom(s.nextId + 1, |call.plusOnes|));
      && PublicCommit(s, call)
         == Anchor(InsertAll(Insert(s, r), AcceptedChildren(PUBLIC, call.event, s.nextId, call.plusOnes, s.now)),
                   s.nextId, r, p)
      && r.firstName == call.firstName && r.lastName == call.lastName
      && r.maxInvitees == |call.plusOnes| && r.parent.None?
  {
  }

  // ---------------------------------------------------- all reachable rows

  /** After every run, status and answer of every row go together as stated. */
  lemma AnswersFitStatuses(now: int, config: Config, steps: seq<Step>, id: Id)
    requires id in Run(Initial(now, config), steps).rows
    ensures var r := Run(Initial(now, config), steps).rows[id];
      && !r.status.CANCELED?
      && (r.status.PENDING? ==> r.choice.None? || r.choice == Some(MAYBE))
      && (r.status.ACCEPTED? || r.status.APPROVED? ==> r.choice == Some(YES))
      && (r.status.DECLINED? ==> r.choice == Some(NO))
      && (r.status.APPROVAL_STAGED? ==> r.choice != Some(NO))
      && (r.choice == Some(NO) ==> r.status.DECLINED? || r.status.REJECTED?)
      && (r.pendingId.Some? <==> r.payload.Some?)
      && (r.parent.Some? ==> r.parent.value in Run(Initial(now, config), steps).rows)
  {
    hide Run;
    var s := Initial(now, config);
    StoreRun(s, steps);
    RowIsOk(Run(s, steps), id);
  }

  /** A YES or NO is final: no later run changes it, nor the row's parent, nor unlinks its guest. */
  lemma AnswersAreFinal(now: int, config: Config, first: seq<Step>, later: seq<Step>, id: Id)
    requires id in Run(Initial(now, config), first).rows && id in Run(Initial(now, config), first + later).rows
    ensures var r, t := Run(Initial(now, config), first).rows[id], Run(Initial(now, config), first + later).rows[id];
      && (r.choice == Some(YES) || r.choice == Some(NO) ==> t.choice == r.choice)
      && t.parent == r.parent
      && (r.guest.Some? ==> t.guest.Some?)
  {
    hide Run;
    hide Sound;
    var s := Initial(now, config);
    InitialIsSound(now, config);
    StoreRun(s, first);
    RunConcat(s, first, later);
    LastsRun(Run(s, first), later);
    IdIsOld(Run(s, first), id);
  }
}
