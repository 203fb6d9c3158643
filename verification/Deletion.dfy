/**
 Deletion across rows: when a bulk delete succeeds and what it leaves, what a
 guest's deletion leaves, and removing plus-ones all at once or one by one.
 */
module Deletion {
  import opened Prelude
  import opened Store
  import opened Forest
  import opened Operations
  import opened System
  import opened Invariants

  // ------------------------------------------------------------- deleteMany

  lemma {:induction false} UnderUnion(rows: Rows, id: Id, a: set<Id>, b: set<Id>)
    ensures Under(rows, id, a + b) <==> Under(rows, id, a) || Under(rows, id, b)
    decreases id
  {
    if id in rows && rows[id].parent.Some? && rows[id].parent.value < id {
      UnderUnion(rows, rows[id].parent.value, a, b);
    }
  }

  /** For a survivor of the first cascade, being under `b` does not change by it. */
  lemma SurvivorsKeepAncestors(rows: Rows, id: Id, a: set<Id>, b: set<Id>)
    requires id in Cascade(rows, a)
    ensures Under(Cascade(rows, a), id, b) <==> Under(rows, id, b)
  {
  }

  predicate Deletable(rows: Rows, id: Id, active: Option<EventId>) {
    id in rows && active == Some(rows[id].event)
  }

  /** Every id exists in the active event, and none repeats or follows itself or an ancestor of it. */
  ghost predicate CleanList(rows: Rows, ids: seq<Id>, active: Option<EventId>) {
    && (forall k | 0 <= k < |ids| :: Deletable(rows, ids[k], active))
    && (forall i, k | 0 <= i < k < |ids| :: !Under(rows, ids[k], {ids[i]}))
  }

  lemma {:induction false} DeleteEachSucceedsIffClean(rows: Rows, ids: seq<Id>, active: Option<EventId>)
    ensures DeleteEach(rows, ids, active).Some? <==> CleanList(rows, ids, active)
    decreases |ids|
  {
    if ids != [] {
      if Deletable(rows, ids[0], active) {
        DeleteEachSucceedsIffClean(Cascade(rows, {ids[0]}), ids[1..], active);
        TailIsClean(rows, ids, active);
      } else {
        assert !Deletable(rows, ids[0], active);
      }
    }
  }

  lemma TailIsClean(rows: Rows, ids: seq<Id>, active: Option<EventId>)
    requires ids != [] && Deletable(rows, ids[0], active)
    ensures CleanList(Cascade(rows, {ids[0]}), ids[1..], active) <==> CleanList(rows, ids, active)
  {
    var left, tail := Cascade(rows, {ids[0]}), ids[1..];
    forall i, k | 0 <= i < k < |tail| && tail[k] in left
      ensures Under(left, tail[k], {tail[i]}) <==> Under(rows, tail[k], {tail[i]})
    {
      SurvivorsKeepAncestors(rows, tail[k], {ids[0]}, {tail[i]});
    }
    if CleanList(left, tail, active) {
      forall k | 0 <= k < |ids| ensures Deletable(rows, ids[k], active) {
        assert k > 0 ==> ids[k] == tail[k - 1] && Deletable(left, tail[k - 1], active);
      }
      forall i, k | 0 <= i < k < |ids| ensures !Under(rows, ids[k], {ids[i]}) {
        assert ids[k] == tail[k - 1] && Deletable(left, tail[k - 1], active);
        if i > 0 {
          assert ids[i] == tail[i - 1] && !Under(left, tail[k - 1], {tail[i - 1]});
        }
      }
    }
    if CleanList(rows, ids, active) {
      forall k | 0 <= k < |tail| ensures Deletable(left, tail[k], active) {
        assert tail[k] == ids[k + 1] && !Under(rows, ids[k + 1], {ids[0]}) && Deletable(rows, ids[k + 1], active);
      }
      forall i, k | 0 <= i < k < |tail| ensures !Under(left, tail[k], {tail[i]}) {
        assert tail[i] == ids[i + 1] && tail[k] == ids[k + 1] && !Under(rows, ids[k + 1], {ids[i + 1]});
        assert Deletable(left, tail[k], active);
      }
    }
  }

  /**
   A bulk delete succeeds exactly for a clean non-empty list; then the store loses the listed
   invitations with all their descendants and nothing else, and otherwise it is unchanged.
   */
  lemma DeleteManyIsAllOrNothing(s: State, ids: seq<Id>, active: Option<EventId>)
    ensures var a := DeleteMany(s, ids, active);
      && (a.outcome == Done <==> ids != [] && CleanList(s.rows, ids, active))
      && a.state == if a.outcome == Done then s.(rows := Cascade(s.rows, AsSet(ids))) else s
  {
    DeleteEachSucceedsIffClean(s.rows, ids, active);
    if DeleteEach(s.rows, ids, active).Some? {
      DeleteEachIsACascade(s.rows, ids, active);
    }
  }

  // -------------------------------------------------------- deleteByGuestId

  /**
   Deleting the whole collected tree row by row is the same as cascade-deleting its roots:
   the store loses exactly the descendants-or-self, and no survivor misses its parent.
   */
  lemma DeletingTheTree(rows: Rows, nextId: Id, roots: set<Id>)
    requires IsForest(rows, nextId)
    ensures Cascade(rows, Closure(rows, roots)) == Cascade(rows, roots)
    ensures IsForest(Cascade(rows, roots), nextId)
  {
    CascadeKeepsForest(rows, nextId, roots);
    var tree := Closure(rows, roots);
    forall id | id in rows ensures Under(rows, id, tree) <==> Under(rows, id, roots) {
      if Under(rows, id, tree) {
        UnderTheTree(rows, id, roots);
      }
    }
    assert Closure(rows, tree) == tree;
  }

  lemma {:induction false} UnderTheTree(rows: Rows, id: Id, roots: set<Id>)
    requires Under(rows, id, Closure(rows, roots))
    ensures Under(rows, id, roots)
    decreases id
  {
    if id !in Closure(rows, roots) {
      UnderTheTree(rows, rows[id].parent.value, roots);
    }
  }

  // ------------------------------------------- plus-ones: all or one by one

  function GuestsDeletedIn(log: seq<Fact>): multiset<UserId>
    decreases |log|
  {
    if log == [] then multiset{}
    else GuestsDeletedIn(log[..|log| - 1])
         + if log[|log| - 1].GuestsDeleted? then log[|log| - 1].users else multiset{}
  }

  lemma GuestsDeletedSnoc(log: seq<Fact>, f: Fact)
    ensures GuestsDeletedIn(log + [f]) == GuestsDeletedIn(log) + if f.GuestsDeleted? then f.users else multiset{}
  {
  }

  function GiveBack(r: Row, slots: int): Row {
    r.(maxInvitees := r.maxInvitees + slots)
  }

  /** The rows after the plus-ones in `gone` were removed. */
  function RowsWithout(rows: Rows, parent: Id, gone: set<Id>): Rows
    requires parent in rows
  {
    Cascade(rows, gone)[parent := GiveBack(rows[parent], |gone|)]
  }

  /** Store, cache and guest deletions after the plus-ones in `gone` were removed; the log itself is left open. */
  ghost predicate Removed(s: State, parent: Id, gone: seq<Id>, t: State)
    requires parent in s.rows && AsSet(gone) <= s.rows.Keys
  {
    && t.rows == RowsWithout(s.rows, parent, AsSet(gone))
    && t.cache == s.cache - PendingOf(s.rows, AsSet(gone))
    && GuestsDeletedIn(t.log) == GuestsDeletedIn(s.log) + GuestsOf(s.rows, gone)
  }

  function RemovalSteps(order: seq<Id>, actor: Actor): seq<Step> {
    seq(|order|, i requires 0 <= i < |order| => DeletePlusOneStep(order[i], actor))
  }

  lemma {:induction false} GuestsOfSnoc(rows: Rows, order: seq<Id>, id: Id)
    ensures GuestsOf(rows, order + [id]) == GuestsOf(rows, order) + GuestAt(rows, id)
    decreases |order|
  {
    if order != [] {
      assert (order + [id])[1..] == order[1..] + [id];
      GuestsOfSnoc(rows, order[1..], id);
    } else {
      assert [id][1..] == [];
    }
  }

  /** A plus-one whose siblings were removed is still there, and so is the parent. */
  lemma NextSiblingIsThere(rows: Rows, nextId: Id, parent: Id, gone: set<Id>, child: Id)
    requires IsForest(rows, nextId) && gone <= Children(rows, parent)
    requires child in Children(rows, parent) && child !in gone
    ensures parent in Cascade(rows, gone) && child in Cascade(rows, gone) && parent != child
  {
    ParentNotUnderChildren(rows, nextId, parent, gone);
    SiblingNotUnder(rows, nextId, parent, child, gone);
  }

  /** The rows of one more removal. */
  lemma RowsWithoutOneMore(rows: Rows, nextId: Id, parent: Id, gone: set<Id>, child: Id)
    requires IsForest(rows, nextId) && gone <= Children(rows, parent)
    requires child in Children(rows, parent) && child !in gone
    ensures parent in rows && child in RowsWithout(rows, parent, gone)
    ensures RowsWithout(rows, parent, gone)[child] == rows[child]
    ensures var left := Cascade(RowsWithout(rows, parent, gone), {child});
      && parent in left
      && left[parent := GiveBack(left[parent], 1)] == RowsWithout(rows, parent, gone + {child})
  {
    var left := Cascade(rows, gone);
    NextSiblingIsThere(rows, nextId, parent, gone, child);
    CascadeTwice(rows, gone, {child});
    CascadeKeepsForest(rows, nextId, gone);
    ParentNotUnderChildren(left, nextId, parent, {child});
    CascadeAfterPut(left, parent, GiveBack(rows[parent], |gone|), {child});
    assert |gone + {child}| == |gone| + 1;
  }

  lemma RemovedAgain(t: State, child: Id)
    requires child in t.rows && t.rows[child].parent.Some?
    requires t.rows[child].parent.value in Cascade(t.rows, {child})
    ensures var r, left := t.rows[child], Cascade(t.rows, {child});
      var u := DeletePlusOneCommit(t, child);
      && u.rows == left[r.parent.value := GiveBack(left[r.parent.value], 1)]
      && u.cache == Forget(t, r.pendingId).cache
      && u.log == if r.guest.Some? then t.log + [GuestsDeleted(multiset{r.guest.value})] else t.log
  {
  }

  lemma CacheWithoutOneMore(s: State, gone: set<Id>, child: Id, t: State)
    requires gone <= s.rows.Keys && child in s.rows && t.cache == s.cache - PendingOf(s.rows, gone)
    ensures Forget(t, s.rows[child].pendingId).cache == s.cache - PendingOf(s.rows, gone + {child})
  {
  }

  lemma RemoveNext(s: State, parent: Id, gone: seq<Id>, child: Id, t: State)
    requires StoreInv(s) && AsSet(gone) <= Children(s.rows, parent)
    requires child in Children(s.rows, parent) && child !in gone
    requires parent in s.rows && Removed(s, parent, gone, t)
    ensures child in t.rows && t.rows[child] == s.rows[child]
    ensures Removed(s, parent, gone + [child], DeletePlusOneCommit(t, child))
  {
    hide Cascade;
    hide DeletePlusOneCommit;
    hide RowsWithout;
    hide GiveBack;
    hide GuestsOf;
    hide PendingOf;
    var done := AsSet(gone);
    assert AsSet(gone + [child]) == done + {child};
    RowsWithoutOneMore(s.rows, s.nextId, parent, done, child);
    RemovedAgain(t, child);
    CacheWithoutOneMore(s, done, child, t);
    GuestsOfSnoc(s.rows, gone, child);
    if s.rows[child].guest.Some? {
      GuestsDeletedSnoc(t.log, GuestsDeleted(multiset{s.rows[child].guest.value}));
    }
  }

  lemma NothingRemoved(s: State, parent: Id)
    requires parent in s.rows
    ensures Removed(s, parent, [], s)
  {
    NothingUnderNothing(s.rows);
    assert AsSet([]) == {};
    assert PendingOf(s.rows, {}) == {};
    assert s.rows[parent := GiveBack(s.rows[parent], 0)] == s.rows;
  }

  lemma {:induction false} OneByOne(s: State, parent: Id, gone: seq<Id>, order: seq<Id>, actor: Actor, t: State)
    requires StoreInv(s) && parent in s.rows && !StandingOn(s, parent, actor).Forbidden?
    requires Lists(gone + order, Children(s.rows, parent)) && AsSet(gone) <= s.rows.Keys
    requires Removed(s, parent, gone, t)
    ensures AsSet(gone + order) <= s.rows.Keys
    ensures Removed(s, parent, gone + order, Run(t, RemovalSteps(order, actor)))
    decreases |order|
  {
    hide Sound;
    hide Removed;
    if order == [] {
      assert gone + order == gone;
    } else {
      var child := order[0];
      NextIsListed(gone, order, Children(s.rows, parent));
      RemoveNext(s, parent, gone, child, t);
      StepOne(s, parent, gone, child, actor, t);
      assert gone + order == (gone + [child]) + order[1..];
      assert RemovalSteps(order, actor)[1..] == RemovalSteps(order[1..], actor);
      OneByOne(s, parent, gone + [child], order[1..], actor, DeletePlusOneCommit(t, child));
    }
  }

  lemma NextIsListed(gone: seq<Id>, order: seq<Id>, ids: set<Id>)
    requires order != [] && Lists(gone + order, ids)
    ensures AsSet(gone) <= ids && order[0] in ids && order[0] !in gone
  {
    var all := gone + order;
    assert all[|gone|] == order[0];
    forall k | 0 <= k < |gone| ensures gone[k] in ids && gone[k] != order[0] {
      assert all[k] == gone[k];
    }
  }

  lemma StepOne(s: State, parent: Id, gone: seq<Id>, child: Id, actor: Actor, t: State)
    requires parent in s.rows && !StandingOn(s, parent, actor).Forbidden?
    requires AsSet(gone) <= s.rows.Keys && Removed(s, parent, gone, t)
    requires child in s.rows && s.rows[child].parent == Some(parent)
    requires child in t.rows && t.rows[child] == s.rows[child]
    ensures Apply(t, DeletePlusOneStep(child, actor)) == DeletePlusOneCommit(t, child)
  {
  }

  lemma {:induction false} ListedCount(order: seq<Id>, ids: set<Id>)
    requires Lists(order, ids)
    ensures |order| == |ids| && AsSet(order) == ids
    decreases |order|
  {
    if order == [] {
      assert forall id | id in ids :: id in order;
      assert ids == {};
    } else {
      var rest := order[1..];
      assert Lists(rest, ids - {order[0]}) by {
        forall k | 0 <= k < |rest| ensures rest[k] in ids - {order[0]} && rest[k] == order[k + 1] {}
        forall id | id in ids - {order[0]} ensures id in rest {
          assert id in order;
        }
      }
      ListedCount(rest, ids - {order[0]});
    }
  }

  /**
   When the children share the parent's event, removing all plus-ones at once and removing them
   one by one, in any order, leave the same rows, the same cache and the same guests to delete.
   */
  lemma AllAtOnceOrOneByOne(s: State, parent: Id, order: seq<Id>, listed: seq<Id>, actor: Actor)
    requires StoreInv(s) && parent in s.rows && !StandingOn(s, parent, actor).Forbidden?
    requires RemovableChildren(s.rows, parent) == Children(s.rows, parent)
    requires Lists(order, Children(s.rows, parent)) && Lists(listed, Children(s.rows, parent))
    ensures var t := Run(s, RemovalSteps(order, actor));
      var u := DeleteAllPlusOnes(s, parent, actor, listed).state;
      && t.rows == u.rows && t.cache == u.cache
      && GuestsDeletedIn(t.log) == GuestsDeletedIn(u.log)
  {
    hide Sound;
    var kids := Children(s.rows, parent);
    NothingRemoved(s, parent);
    assert [] + order == order;
    OneByOne(s, parent, [], order, actor, s);
    ListedCount(order, kids);
    ListedCount(listed, kids);
    SameGuests(s.rows, order, listed, kids);
    AllAtOnce(s, parent, GuestsOf(s.rows, listed));
  }

  lemma AllAtOnce(s: State, parent: Id, guests: multiset<UserId>)
    requires StoreInv(s) && parent in s.rows
    requires RemovableChildren(s.rows, parent) == Children(s.rows, parent)
    ensures var u := DeleteAllCommit(s, parent, guests);
      && u.rows == RowsWithout(s.rows, parent, Children(s.rows, parent))
      && u.cache == s.cache - PendingOf(s.rows, Children(s.rows, parent))
      && GuestsDeletedIn(u.log) == GuestsDeletedIn(s.log) + guests
  {
    SurvivingParent(s, parent);
    if guests != multiset{} {
      GuestsDeletedSnoc(s.log, GuestsDeleted(guests));
    }
  }

  lemma SurvivingParent(s: State, parent: Id)
    requires StoreInv(s) && parent in s.rows
    ensures parent in Cascade(s.rows, Children(s.rows, parent))
  {
    ParentNotUnderChildren(s.rows, s.nextId, parent, Children(s.rows, parent));
  }

  /** The order of a query does not change which guests it names. */
  lemma {:induction false} SameGuests(rows: Rows, a: seq<Id>, b: seq<Id>, ids: set<Id>)
    requires Lists(a, ids) && Lists(b, ids) && ids <= rows.Keys
    ensures GuestsOf(rows, a) == GuestsOf(rows, b)
    decreases |a|
  {
    if a == [] {
      ListedCount(a, ids);
      ListedCount(b, ids);
    } else {
      var id := a[0];
      assert id in b;
      var k :| 0 <= k < |b| && b[k] == id;
      var without := b[..k] + b[k + 1..];
      ListsWithout(a, ids, 0);
      ListsWithout(b, ids, k);
      assert a[..0] + a[1..] == a[1..];
      SameGuests(rows, a[1..], without, ids - {id});
      PullOut(rows, b, k);
    }
  }

  lemma ListsWithout(order: seq<Id>, ids: set<Id>, k: nat)
    requires Lists(order, ids) && k < |order|
    ensures Lists(order[..k] + order[k + 1..], ids - {order[k]})
  {
  }

  lemma {:induction false} PullOut(rows: Rows, order: seq<Id>, k: nat)
    requires k < |order|
    ensures GuestsOf(rows, order) == GuestAt(rows, order[k]) + GuestsOf(rows, order[..k] + order[k + 1..])
    decreases k
  {
    var rest := order[..k] + order[k + 1..];
    if k == 0 {
      assert rest == order[1..];
    } else {
      PullOut(rows, order[1..], k - 1);
      assert rest[1..] == order[1..][..k - 1] + order[1..][k..];
      assert rest[0] == order[0] && order[1..][k - 1] == order[k];
    }
  }
}
