/**
 The analytics outbox table: one row of it, the guards of the scan and of the
 claim, and the three writes a publisher makes to a row.  Times are milliseconds.
 */
module OutboxRow {
  import opened Prelude

  type Id = nat
  type Instance = nat

  const LEASE_MS := 60_000
  const BATCH_SIZE := 50
  const MAX_ATTEMPTS := 10
  const MAX_BACKOFF_MS := 300_000

  datatype Row = Row(
    createdAt: int,
    attempts: nat,
    nextAttemptAt: int,
    lockedAt: Option<int>,
    lockedBy: Option<Instance>,
    publishedAt: Option<int>,
    deadLetteredAt: Option<int>,
    lastError: Option<string>)

  type Table = map<Id, Row>

  /** A row the service inserts: due at once, unlocked, never tried. */
  function NewRow(now: int): Row {
    Row(now, 0, now, None, None, None, None, None)
  }

  predicate Open(r: Row) {
    r.publishedAt.None? && r.deadLetteredAt.None?
  }

  predicate LeaseFree(r: Row, now: int) {
    r.lockedAt.None? || r.lockedAt.value < now - LEASE_MS
  }

  /** The scan's filter. */
  predicate Due(r: Row, now: int) {
    Open(r) && r.nextAttemptAt <= now && LeaseFree(r, now)
  }

  /** The claim's filter: unlike the scan it does not look at `nextAttemptAt`. */
  predicate Claimable(r: Row, now: int) {
    Open(r) && LeaseFree(r, now)
  }

  function Pow2(n: nat): nat {
    if n == 0 then 1 else 2 * Pow2(n - 1)
  }

  function Backoff(attempts: nat): nat {
    var delay := Pow2(attempts) * 1_000;
    if delay < MAX_BACKOFF_MS then delay else MAX_BACKOFF_MS
  }

  function Claimed(r: Row, stamp: int, owner: Instance): Row {
    r.(lockedAt := Some(stamp), lockedBy := Some(owner))
  }

  function Published(r: Row, now: int): Row {
    r.(publishedAt := Some(now), lockedAt := None, lockedBy := None, lastError := None)
  }

  /** The failure write: it stores one more than the count that was READ, not one more than the row holds. */
  function Failed(r: Row, readAttempts: nat, now: int, error: string): Row {
    var attempts := readAttempts + 1;
    var released := r.(attempts := attempts, lockedAt := None, lockedBy := None, lastError := Some(error));
    if attempts >= MAX_ATTEMPTS then released.(deadLetteredAt := Some(now))
    else released.(nextAttemptAt := now + Backoff(attempts))
  }

  // ---------------------------------------------------------------- backoff

  lemma {:induction false} BackoffNeverDecreases(i: nat, j: nat)
    requires i <= j
    ensures Backoff(i) <= Backoff(j) <= MAX_BACKOFF_MS
    decreases j - i
  {
    if i < j {
      BackoffNeverDecreases(i, j - 1);
      assert Pow2(j) == 2 * Pow2(j - 1);
    }
  }

  function BackoffSum(n: nat): nat {
    if n == 0 then 0 else BackoffSum(n - 1) + Backoff(n)
  }

  /** The nine delays between ten attempts add up to 810 seconds; only the ninth is capped. */
  lemma BackoffTotal()
    ensures BackoffSum(MAX_ATTEMPTS - 1) == 810_000
    ensures forall k: nat | 1 <= k < MAX_ATTEMPTS :: Backoff(k) == MAX_BACKOFF_MS <==> k == 9
  {
    assert Pow2(1) == 2 && Pow2(2) == 4 && Pow2(3) == 8;
    assert Pow2(4) == 16 && Pow2(5) == 32 && Pow2(6) == 64;
    assert Pow2(7) == 128 && Pow2(8) == 256 && Pow2(9) == 512;
    assert BackoffSum(3) == 14_000;
    assert BackoffSum(6) == 126_000;
    assert BackoffSum(9) == 810_000;
  }

  // ------------------------------------------------------------- the batch

  ghost predicate Distinct<T(!new)>(s: seq<T>) {
    forall i, j :: 0 <= i < j < |s| ==> s[i] != s[j]
  }

  function DueIds(t: Table, now: int): set<Id> {
    set id | id in t && Due(t[id], now)
  }

  /** What `findMany` with its filter, order and `take: 50` promises; ties in `createdAt` are free. */
  ghost predicate IsBatch(t: Table, now: int, batch: seq<Id>) {
    && Distinct(batch)
    && |batch| <= BATCH_SIZE
    && (forall i :: 0 <= i < |batch| ==> batch[i] in DueIds(t, now))
    && (forall i, j :: 0 <= i < j < |batch| ==> t[batch[i]].createdAt <= t[batch[j]].createdAt)
    && (forall id | id in DueIds(t, now) :: id !in batch ==>
          |batch| == BATCH_SIZE && forall b | b in batch :: t[b].createdAt <= t[id].createdAt)
  }
}
