/**
 Parent pointers and cascading deletes.  Parents exist before their children and
 are never rewritten, so the pointers form a forest ordered by creation.
 */
module Forest {
  import opened Prelude
  import opened Store

  ghost predicate IsForest(rows: Rows, nextId: Id) {
    forall id | id in rows ::
      && id < nextId
      && (rows[id].parent.Some? ==> rows[id].parent.value in rows && rows[id].parent.value < id)
  }

  /** `id` or one of its ancestors is in `roots`. */
  predicate Under(rows: Rows, id: Id, roots: set<Id>) {
    && id in rows
    && (id in roots
        || (rows[id].parent.Some? && rows[id].parent.value < id && Under(rows, rows[id].parent.value, roots)))
  }

  function Closure(rows: Rows, roots: set<Id>): set<Id> {
    set id | id in rows && Under(rows, id, roots)
  }

  /** Deleting `roots` when the database cascades along the parent pointer. */
  function Cascade(rows: Rows, roots: set<Id>): Rows {
    rows - Closure(rows, roots)
  }

  function Children(rows: Rows, parent: Id): set<Id> {
    set id | id in rows && rows[id].parent == Some(parent)
  }

  lemma {:induction false} UnderMonotone(rows: Rows, id: Id, a: set<Id>, b: set<Id>)
    requires a <= b && Under(rows, id, a)
    ensures Under(rows, id, b)
    decreases id
  {
    if id !in a {
      UnderMonotone(rows, rows[id].parent.value, a, b);
    }
  }

  /** Everything under the roots is at least as young as one of them. */
  lemma {:induction false} UnderIsYounger(rows: Rows, id: Id, roots: set<Id>)
    requires Under(rows, id, roots)
    ensures exists r :: r in roots && r <= id
    decreases id
  {
    if id in roots {
      assert id in roots && id <= id;
    } else {
      UnderIsYounger(rows, rows[id].parent.value, roots);
      var r :| r in roots && r <= rows[id].parent.value;
      assert r in roots && r <= id;
    }
  }

  /** In a forest the closure is the least set that holds the roots and, with a row, its children. */
  lemma ClosureIsLeast(rows: Rows, nextId: Id, roots: set<Id>, closed: set<Id>)
    requires IsForest(rows, nextId)
    requires forall id | id in rows && id in roots :: id in closed
    requires forall id | id in rows && rows[id].parent.Some? && rows[id].parent.value in closed :: id in closed
    ensures Closure(rows, roots) <= closed
    ensures forall id | id in rows && id in roots :: id in Closure(rows, roots)
    ensures forall id | id in rows && rows[id].parent.Some? && rows[id].parent.value in Closure(rows, roots) ::
      id in Closure(rows, roots)
  {
    forall id | id in Closure(rows, roots) ensures id in closed {
      InEveryClosedSet(rows, id, roots, closed);
    }
  }

  lemma {:induction false} InEveryClosedSet(rows: Rows, id: Id, roots: set<Id>, closed: set<Id>)
    requires Under(rows, id, roots)
    requires forall id | id in rows && id in roots :: id in closed
    requires forall id | id in rows && rows[id].parent.Some? && rows[id].parent.value in closed :: id in closed
    ensures id in closed
    decreases id
  {
    if id !in roots {
      InEveryClosedSet(rows, rows[id].parent.value, roots, closed);
    }
  }

  /** A cascade leaves no row with a missing parent. */
  lemma CascadeKeepsForest(rows: Rows, nextId: Id, roots: set<Id>)
    requires IsForest(rows, nextId)
    ensures IsForest(Cascade(rows, roots), nextId)
  {
  }

  /** Under two sets of roots at once: under one of them, or under the other in what the first cascade leaves. */
  lemma {:induction false} UnderEither(rows: Rows, id: Id, a: set<Id>, b: set<Id>)
    requires id in rows
    ensures Under(rows, id, a + b) <==> Under(rows, id, a) || Under(Cascade(rows, a), id, b)
    decreases id
  {
    if rows[id].parent.Some? && rows[id].parent.value < id && rows[id].parent.value in rows {
      UnderEither(rows, rows[id].parent.value, a, b);
    }
  }

  /** Cascades compose: deleting `a` and then `b` is deleting both at once. */
  lemma CascadeTwice(rows: Rows, a: set<Id>, b: set<Id>)
    ensures Cascade(Cascade(rows, a), b) == Cascade(rows, a + b)
  {
    forall id | id in rows ensures id in Cascade(rows, a + b) <==> id in Cascade(Cascade(rows, a), b) {
      UnderEither(rows, id, a, b);
    }
  }

  /** Only the parent pointers matter to a cascade, not what else the rows hold. */
  lemma {:induction false} UnderSamePointers(rows: Rows, other: Rows, id: Id, roots: set<Id>)
    requires rows.Keys == other.Keys && forall i | i in rows :: rows[i].parent == other[i].parent
    ensures Under(rows, id, roots) <==> Under(other, id, roots)
    decreases id
  {
    if id in rows && rows[id].parent.Some? && rows[id].parent.value < id {
      UnderSamePointers(rows, other, rows[id].parent.value, roots);
    }
  }

  lemma CascadeAfterPut(rows: Rows, id: Id, r: Row, roots: set<Id>)
    requires id in rows && r.parent == rows[id].parent
    ensures Cascade(rows[id := r], roots)
         == if Under(rows, id, roots) then Cascade(rows, roots) else Cascade(rows, roots)[id := r]
  {
    forall i ensures Under(rows[id := r], i, roots) <==> Under(rows, i, roots) {
      UnderSamePointers(rows, rows[id := r], i, roots);
    }
  }

  /** A child never takes its parent along. */
  lemma ParentNotUnderChildren(rows: Rows, nextId: Id, parent: Id, kids: set<Id>)
    requires IsForest(rows, nextId) && kids <= Children(rows, parent)
    ensures !Under(rows, parent, kids)
  {
    if Under(rows, parent, kids) {
      UnderIsYounger(rows, parent, kids);
    }
  }

  /** Siblings do not take each other along. */
  lemma SiblingNotUnder(rows: Rows, nextId: Id, parent: Id, child: Id, kids: set<Id>)
    requires IsForest(rows, nextId) && kids <= Children(rows, parent)
    requires child in Children(rows, parent) && child !in kids
    ensures !Under(rows, child, kids)
  {
    ParentNotUnderChildren(rows, nextId, parent, kids);
  }
}
