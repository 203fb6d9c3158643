/** Choosing the one invitation a magic link is for. */
module MagicLink {
  import opened Prelude

  /**
   An invitation behind the identifier.  `approved` stands for the two eligible statuses, `name` is the
   normalised full name; `updatedAt` is missing for some rows and then counts as time zero.
   */
  datatype Candidate = Candidate(
    guest: Option<nat>, approved: bool, endsAt: Option<int>, name: string, isRoot: bool, updatedAt: Option<int>)

  function Stamp(c: Candidate): int {
    if c.updatedAt.Some? then c.updatedAt.value else 0
  }

  function Filter(cs: seq<Candidate>, ok: Candidate -> bool): seq<Candidate> {
    if cs == [] then []
    else (if ok(cs[0]) then [cs[0]] else []) + Filter(cs[1..], ok)
  }

  /** The stable sort, newest first. */
  function InsertNewest(c: Candidate, sorted: seq<Candidate>): (longer: seq<Candidate>)
    ensures |longer| == |sorted| + 1
  {
    if sorted == [] || Stamp(c) >= Stamp(sorted[0]) then [c] + sorted
    else [sorted[0]] + InsertNewest(c, sorted[1..])
  }

  function NewestFirst(cs: seq<Candidate>): (sorted: seq<Candidate>)
    ensures |sorted| == |cs|
  {
    if cs == [] then [] else InsertNewest(cs[0], NewestFirst(cs[1..]))
  }

  predicate Named(c: Candidate, name: Option<string>) {
    name.Some? ==> c.name == name.value
  }

  /** `name` is given only when both parts of the name are. */
  function Resolve(candidates: seq<Candidate>, name: Option<string>): Option<Candidate> {
    var subset := Filter(candidates, (c: Candidate) => Named(c, name));
    if |subset| == 0 then None
    else if |subset| == 1 then Some(subset[0])
    else
      var roots := Filter(subset, (c: Candidate) => c.isRoot);
      if |roots| == 1 then Some(roots[0])
      else if name.Some? && |roots| > 1 then
        var sorted := NewestFirst(roots);
        if |sorted| > 1 && Stamp(sorted[0]) != Stamp(sorted[1]) then Some(sorted[0]) else None
      else None
  }

  // --------------------------------------------------- who wins, order-free

  /** `c` is the only row that is `ok`, and there is one such row. */
  ghost predicate Only(rows: multiset<Candidate>, ok: Candidate -> bool, c: Candidate) {
    ok(c) && rows[c] == 1 && forall d | d in rows && ok(d) :: d == c
  }

  /** `c` is strictly newer than every other root with the right name. */
  ghost predicate Newest(rows: multiset<Candidate>, ok: Candidate -> bool, c: Candidate) {
    ok(c) && rows[c] == 1 && forall d | d in rows && ok(d) && d != c :: Stamp(d) < Stamp(c)
  }

  ghost predicate Wins(rows: multiset<Candidate>, name: Option<string>, c: Candidate) {
    || Only(rows, (d: Candidate) => Named(d, name), c)
    || Only(rows, (d: Candidate) => Named(d, name) && d.isRoot, c)
    || (name.Some? && Newest(rows, (d: Candidate) => Named(d, name) && d.isRoot, c))
  }

  lemma {:induction false} FilterCounts(cs: seq<Candidate>, ok: Candidate -> bool, c: Candidate)
    ensures multiset(Filter(cs, ok))[c] == if ok(c) then multiset(cs)[c] else 0
    decreases |cs|
  {
    if cs != [] {
      assert cs == [cs[0]] + cs[1..];
      FilterCounts(cs[1..], ok, c);
    }
  }

  lemma {:induction false} FilterTwice(
    cs: seq<Candidate>, a: Candidate -> bool, b: Candidate -> bool, both: Candidate -> bool)
    requires forall c :: both(c) <==> a(c) && b(c)
    ensures Filter(Filter(cs, a), b) == Filter(cs, both)
    decreases |cs|
  {
    if cs != [] {
      FilterTwice(cs[1..], a, b, both);
      if a(cs[0]) {
        var kept := Filter(cs, a);
        assert kept == [cs[0]] + Filter(cs[1..], a);
        assert kept[1..] == Filter(cs[1..], a);
      } else {
        assert Filter(cs, a) == Filter(cs[1..], a);
      }
    }
  }

  /** One row is left over by a filter exactly when it is the only one that passes. */
  lemma FilterOnly(cs: seq<Candidate>, ok: Candidate -> bool, c: Candidate)
    ensures Filter(cs, ok) == [c] <==> Only(multiset(cs), ok, c)
  {
    var kept := Filter(cs, ok);
    FilterCounts(cs, ok, c);
    if kept == [c] {
      forall d | d in multiset(cs) && ok(d) ensures d == c {
        FilterCounts(cs, ok, d);
      }
      assert multiset(kept) == multiset{c};
    }
    if Only(multiset(cs), ok, c) {
      forall d ensures multiset(kept)[d] == multiset{c}[d] {
        FilterCounts(cs, ok, d);
      }
      assert multiset(kept) == multiset{c};
      assert |kept| == |multiset(kept)| == 1;
      assert kept[0] in multiset(kept);
      assert kept == [kept[0]];
    }
  }

  ghost predicate Descending(cs: seq<Candidate>) {
    forall i, j | 0 <= i < j < |cs| :: Stamp(cs[i]) >= Stamp(cs[j])
  }

  lemma {:induction false} InsertPermutes(c: Candidate, sorted: seq<Candidate>)
    ensures multiset(InsertNewest(c, sorted)) == multiset{c} + multiset(sorted)
    decreases |sorted|
  {
    if sorted != [] && Stamp(c) < Stamp(sorted[0]) {
      InsertPermutes(c, sorted[1..]);
      assert multiset([sorted[0]] + sorted[1..]) == multiset{sorted[0]} + multiset(sorted[1..]);
      assert sorted == [sorted[0]] + sorted[1..];
    }
  }

  lemma {:induction false} InsertIsSorted(c: Candidate, sorted: seq<Candidate>)
    requires Descending(sorted)
    ensures Descending(InsertNewest(c, sorted))
    decreases |sorted|
  {
    if sorted != [] && Stamp(c) < Stamp(sorted[0]) {
      var tail := sorted[1..];
      var rest := InsertNewest(c, tail);
      InsertIsSorted(c, tail);
      InsertPermutes(c, tail);
      forall k | 0 <= k < |rest| ensures Stamp(rest[k]) <= Stamp(sorted[0]) {
        assert rest[k] in multiset(rest);
        if rest[k] != c {
          assert rest[k] in tail;
        }
      }
    }
  }

  lemma {:induction false} SortIsSorted(cs: seq<Candidate>)
    ensures Descending(NewestFirst(cs)) && multiset(NewestFirst(cs)) == multiset(cs)
    decreases |cs|
  {
    if cs != [] {
      SortIsSorted(cs[1..]);
      InsertIsSorted(cs[0], NewestFirst(cs[1..]));
      InsertPermutes(cs[0], NewestFirst(cs[1..]));
      assert cs == [cs[0]] + cs[1..];
    }
  }

  /** Among several rows the sort has a clear first exactly when one is strictly newest. */
  lemma ClearFirst(roots: seq<Candidate>, c: Candidate)
    requires |roots| > 1
    ensures var sorted := NewestFirst(roots);
      && |sorted| == |roots|
      && (Stamp(sorted[0]) != Stamp(sorted[1]) && sorted[0] == c
          <==> multiset(roots)[c] == 1 && forall d | d in roots && d != c :: Stamp(d) < Stamp(c))
  {
    var sorted := NewestFirst(roots);
    SortIsSorted(roots);
    assert |sorted| == |multiset(sorted)| == |roots|;
    var tail := sorted[1..];
    assert sorted == [sorted[0]] + tail;
    assert multiset(roots)[sorted[0]] == 1 + multiset(tail)[sorted[0]];
    if Stamp(sorted[0]) != Stamp(sorted[1]) {
      forall k | 0 <= k < |tail| ensures Stamp(tail[k]) < Stamp(sorted[0]) {
        assert tail[k] == sorted[k + 1];
      }
      forall d | d in roots && d != sorted[0] ensures Stamp(d) < Stamp(sorted[0]) {
        assert d in multiset(roots);
        assert d in tail;
      }
      assert sorted[0] !in multiset(tail);
    }
    if multiset(roots)[c] == 1 && forall d | d in roots && d != c :: Stamp(d) < Stamp(c) {
      forall k | 0 <= k < |sorted| ensures sorted[k] in roots {
        assert sorted[k] in multiset(sorted);
      }
      assert c in multiset(sorted);
      assert sorted[0] == c;
      assert sorted[1] != c by {
        assert sorted[1] == tail[0] && tail[0] in multiset(tail);
      }
    }
  }

  lemma NewestOfFilter(cs: seq<Candidate>, ok: Candidate -> bool, c: Candidate)
    ensures Newest(multiset(cs), ok, c) <==>
      (multiset(Filter(cs, ok))[c] == 1 && forall d | d in Filter(cs, ok) && d != c :: Stamp(d) < Stamp(c))
  {
    var kept := Filter(cs, ok);
    FilterCounts(cs, ok, c);
    forall d ensures d in kept <==> d in multiset(cs) && ok(d) {
      FilterCounts(cs, ok, d);
      assert d in kept <==> d in multiset(kept);
    }
  }

  /**
   The chosen invitation: the only one with the right name, or the only root among several, or,
   with a full name, the root updated strictly last; in every other case none.
   */
  lemma ResolvesExactlyTheWinner(candidates: seq<Candidate>, name: Option<string>, c: Candidate)
    ensures Resolve(candidates, name) == Some(c) <==> Wins(multiset(candidates), name, c)
  {
    var named := (d: Candidate) => Named(d, name);
    var both := (d: Candidate) => Named(d, name) && d.isRoot;
    var subset := Filter(candidates, named);
    FilterOnly(candidates, named, c);
    if |subset| == 1 {
      assert subset == [subset[0]];
      AtMost(candidates, named, subset[0], both, c);
    } else {
      FilterTwice(candidates, named, (d: Candidate) => d.isRoot, both);
      AmongRoots(candidates, name, both, c);
    }
  }

  /** The choice once the name alone does not decide. */
  lemma AmongRoots(candidates: seq<Candidate>, name: Option<string>, both: Candidate -> bool, c: Candidate)
    ensures var roots := Filter(candidates, both);
      (|roots| == 1 && roots[0] == c)
      || (name.Some? && |roots| > 1
          && Stamp(NewestFirst(roots)[0]) != Stamp(NewestFirst(roots)[1]) && NewestFirst(roots)[0] == c)
      <==> Only(multiset(candidates), both, c) || (name.Some? && Newest(multiset(candidates), both, c))
  {
    var roots := Filter(candidates, both);
    FilterOnly(candidates, both, c);
    NewestOfFilter(candidates, both, c);
    if |roots| == 1 {
      assert roots == [roots[0]];
      OnlyOneInIt(roots, c);
    } else if |roots| > 1 {
      ClearFirst(roots, c);
    } else {
      assert multiset(roots)[c] == 0;
    }
  }

  lemma OnlyOneInIt(cs: seq<Candidate>, c: Candidate)
    requires |cs| == 1
    ensures multiset(cs)[c] == 1 <==> cs == [c]
  {
  }

  /** When one row alone has the right name, no other row can win. */
  lemma AtMost(cs: seq<Candidate>, named: Candidate -> bool, only: Candidate, both: Candidate -> bool, c: Candidate)
    requires Filter(cs, named) == [only] && (forall d :: both(d) ==> named(d))
    ensures Only(multiset(cs), both, c) || Newest(multiset(cs), both, c) ==> c == only
  {
    FilterOnly(cs, named, only);
    if Only(multiset(cs), both, c) || Newest(multiset(cs), both, c) {
      assert c in multiset(cs) && named(c);
    }
  }

  /** The answer does not depend on the order in which the database returns the rows. */
  lemma OrderDoesNotMatter(a: seq<Candidate>, b: seq<Candidate>, name: Option<string>)
    requires multiset(a) == multiset(b)
    ensures Resolve(a, name) == Resolve(b, name)
  {
    if Resolve(a, name).Some? {
      ResolvesExactlyTheWinner(a, name, Resolve(a, name).value);
      ResolvesExactlyTheWinner(b, name, Resolve(a, name).value);
    } else if Resolve(b, name).Some? {
      ResolvesExactlyTheWinner(a, name, Resolve(b, name).value);
      ResolvesExactlyTheWinner(b, name, Resolve(b, name).value);
    }
  }

  // ------------------------------------------------------------ the request

  datatype Result =
    | DispatchQueued(user: nat)
    | NoMatch
    | Ambiguous
    | IneligibleStatus
    | MissingGuestProfile
    | EventExpired
    | InternalFailure

  predicate Eligible(c: Candidate, now: int) {
    c.approved && c.endsAt.Some? && c.endsAt.value > now && c.guest.Some?
  }

  predicate Any(cs: seq<Candidate>, ok: Candidate -> bool) {
    exists k :: 0 <= k < |cs| && ok(cs[k])
  }

  function IneligibleReason(matches: seq<Candidate>, now: int): Result {
    if Any(matches, (c: Candidate) => !c.approved) then IneligibleStatus
    else if Any(matches, (c: Candidate) => c.guest.None?) then MissingGuestProfile
    else if Any(matches, (c: Candidate) => c.endsAt.None? || c.endsAt.value <= now) then EventExpired
    else InternalFailure
  }

  function Respond(matches: seq<Candidate>, name: Option<string>, now: int): Result {
    if |matches| == 0 then NoMatch
    else
      var eligible := Filter(matches, (c: Candidate) => Eligible(c, now));
      if |eligible| == 0 then IneligibleReason(matches, now)
      else
        var chosen := Resolve(eligible, name);
        if chosen.None? || chosen.value.guest.None? then Ambiguous else DispatchQueued(chosen.value.guest.value)
  }

  lemma SameRows(a: seq<Candidate>, b: seq<Candidate>, ok: Candidate -> bool)
    requires multiset(a) == multiset(b)
    ensures multiset(Filter(a, ok)) == multiset(Filter(b, ok))
    ensures Any(a, ok) <==> Any(b, ok)
    ensures |a| == |b| && |Filter(a, ok)| == |Filter(b, ok)|
  {
    forall c ensures multiset(Filter(a, ok))[c] == multiset(Filter(b, ok))[c] {
      FilterCounts(a, ok, c);
      FilterCounts(b, ok, c);
    }
    assert multiset(Filter(a, ok)) == multiset(Filter(b, ok));
    assert |a| == |multiset(a)| == |b| && |Filter(a, ok)| == |multiset(Filter(a, ok))| == |Filter(b, ok)|;
    forall c | c in a ensures c in b {
      assert c in multiset(a);
    }
    forall c | c in b ensures c in a {
      assert c in multiset(b);
    }
    if Any(a, ok) {
      var k :| 0 <= k < |a| && ok(a[k]);
      assert a[k] in b;
    }
    if Any(b, ok) {
      var k :| 0 <= k < |b| && ok(b[k]);
      assert b[k] in a;
    }
  }

  /** The whole request answers alike for every order of the rows. */
  lemma RequestIgnoresOrder(a: seq<Candidate>, b: seq<Candidate>, name: Option<string>, now: int)
    requires multiset(a) == multiset(b)
    ensures Respond(a, name, now) == Respond(b, name, now)
  {
    hide Resolve;
    hide Filter;
    hide Any;
    var ok := (d: Candidate) => Eligible(d, now);
    SameRows(a, b, ok);
    OrderDoesNotMatter(Filter(a, ok), Filter(b, ok), name);
    SameRows(a, b, (c: Candidate) => !c.approved);
    SameRows(a, b, (c: Candidate) => c.guest.None?);
    SameRows(a, b, (c: Candidate) => c.endsAt.None? || c.endsAt.value <= now);
  }

  ghost predicate WinsFor(eligible: multiset<Candidate>, name: Option<string>, user: nat) {
    exists c: Candidate :: c in eligible && c.guest == Some(user) && Wins(eligible, name, c)
  }

  /** It dispatches exactly to the guest of the winner among the eligible rows. */
  lemma DispatchesToTheWinner(a: seq<Candidate>, name: Option<string>, now: int, user: nat)
    ensures Respond(a, name, now) == DispatchQueued(user) <==>
      WinsFor(multiset(Filter(a, (d: Candidate) => Eligible(d, now))), name, user)
  {
    hide Resolve;
    hide Wins;
    hide IneligibleReason;
    var eligible := Filter(a, (d: Candidate) => Eligible(d, now));
    WinnersAreRows(eligible, name);
    if Resolve(eligible, name).Some? {
      var c := Resolve(eligible, name).value;
      ResolvesExactlyTheWinner(eligible, name, c);
    }
    ReasonsAreNoDispatch(a, now);
    if WinsFor(multiset(eligible), name, user) {
      var c: Candidate :| c in multiset(eligible) && c.guest == Some(user) && Wins(multiset(eligible), name, c);
      ResolvesExactlyTheWinner(eligible, name, c);
    }
  }

  lemma WinnersAreRows(cs: seq<Candidate>, name: Option<string>)
    ensures forall c: Candidate | Wins(multiset(cs), name, c) :: c in multiset(cs)
    ensures cs == [] ==> Resolve(cs, name).None?
  {
  }

  lemma ReasonsAreNoDispatch(a: seq<Candidate>, now: int)
    ensures !IneligibleReason(a, now).DispatchQueued?
    ensures a == [] ==> Filter(a, (d: Candidate) => Eligible(d, now)) == []
  {
  }

  /** An ineligible answer always has one of the three named reasons; the fallback never shows. */
  lemma IneligibleHasAReason(a: seq<Candidate>, name: Option<string>, now: int)
    ensures Respond(a, name, now) != InternalFailure
  {
  }

  // ---------------------------------------------------- told from outside

  /** A row a link can be sent for: linked, approved, its event not over, and with the name that was given, if any. */
  predicate Usable(c: Candidate, name: Option<string>, now: int) {
    && c.guest.Some? && c.approved && c.endsAt.Some? && c.endsAt.value > now
    && (name.Some? ==> c.name == name.value)
  }

  /** The time of the last update; a row without one counts as never updated. */
  function UpdatedAt(c: Candidate): int {
    match c.updatedAt
    case Some(time) => time
    case None => 0
  }

  /**
   Row `k` is the one: the only usable row; or the only usable root; or, with a name, updated after every other
   usable root.
   */
  ghost predicate IsTheOne(a: seq<Candidate>, name: Option<string>, now: int, k: nat)
    requires k < |a|
  {
    && Usable(a[k], name, now)
    && (|| (forall j | 0 <= j < |a| && j != k :: !Usable(a[j], name, now))
        || (a[k].isRoot && forall j | 0 <= j < |a| && j != k :: !(Usable(a[j], name, now) && a[j].isRoot))
        || (name.Some? && a[k].isRoot
            && forall j | 0 <= j < |a| && j != k && Usable(a[j], name, now) && a[j].isRoot ::
                 UpdatedAt(a[j]) < UpdatedAt(a[k])))
  }

  lemma AmongEligible(a: seq<Candidate>, now: int, c: Candidate)
    ensures var rows := multiset(Filter(a, (d: Candidate) => Eligible(d, now)));
      rows[c] == if c.guest.Some? && c.approved && c.endsAt.Some? && c.endsAt.value > now then multiset(a)[c] else 0
  {
    FilterCounts(a, (d: Candidate) => Eligible(d, now), c);
  }

  /** A row occurs once exactly if no other place holds it. */
  lemma OnceExactly(a: seq<Candidate>, k: nat)
    requires k < |a|
    ensures multiset(a)[a[k]] == 1 <==> forall j | 0 <= j < |a| && j != k :: a[j] != a[k]
  {
    var rest := a[..k] + a[k + 1..];
    assert multiset(a)[a[k]] == multiset(rest)[a[k]] + 1 by {
      assert a == a[..k] + [a[k]] + a[k + 1..];
    }
    if i :| 0 <= i < |rest| && rest[i] == a[k] {
      assert a[if i < k then i else i + 1] == a[k];
    }
    if j :| 0 <= j < |a| && j != k && a[j] == a[k] {
      assert rest[if j < k then j else j - 1] == a[k];
    }
  }

  /** What the rows that pass a filter hold, place by place. */
  ghost predicate Passing(a: seq<Candidate>, rows: multiset<Candidate>, ok: Candidate -> bool) {
    forall c :: rows[c] == if ok(c) then multiset(a)[c] else 0
  }

  lemma OnlyPlace(a: seq<Candidate>, rows: multiset<Candidate>, p: Candidate -> bool, q: Candidate -> bool, k: nat)
    requires k < |a| && p(a[k]) && q(a[k]) && Passing(a, rows, p)
    ensures Only(rows, q, a[k]) <==> forall j | 0 <= j < |a| && j != k :: !(p(a[j]) && q(a[j]))
  {
    OnceExactly(a, k);
    forall j | 0 <= j < |a| ensures a[j] in multiset(a) {}
    forall d | d in rows ensures exists j :: 0 <= j < |a| && a[j] == d {
      assert d in multiset(a);
    }
    if Only(rows, q, a[k]) {
      forall j | 0 <= j < |a| && j != k ensures !(p(a[j]) && q(a[j])) {
        assert p(a[j]) ==> a[j] in rows;
      }
    }
  }

  lemma NewestPlace(a: seq<Candidate>, rows: multiset<Candidate>, p: Candidate -> bool, q: Candidate -> bool, k: nat)
    requires k < |a| && p(a[k]) && q(a[k]) && Passing(a, rows, p)
    ensures Newest(rows, q, a[k])
      <==> forall j | 0 <= j < |a| && j != k && p(a[j]) && q(a[j]) :: UpdatedAt(a[j]) < UpdatedAt(a[k])
  {
    OnceExactly(a, k);
    forall j | 0 <= j < |a| ensures a[j] in multiset(a) {}
    forall d | d in rows ensures exists j :: 0 <= j < |a| && a[j] == d {
      assert d in multiset(a);
    }
    if Newest(rows, q, a[k]) {
      forall j | 0 <= j < |a| && j != k && p(a[j]) && q(a[j]) ensures UpdatedAt(a[j]) < UpdatedAt(a[k]) {
        assert a[j] in rows && a[j] != a[k];
      }
    }
  }

  lemma OnlyNamed(a: seq<Candidate>, rows: multiset<Candidate>, name: Option<string>, now: int, k: nat)
    requires k < |a| && Usable(a[k], name, now) && Passing(a, rows, (d: Candidate) => Eligible(d, now))
    ensures Only(rows, (d: Candidate) => Named(d, name), a[k])
      <==> forall j | 0 <= j < |a| && j != k :: !Usable(a[j], name, now)
  {
    hide Only;
    hide Passing;
    OnlyPlace(a, rows, (d: Candidate) => Eligible(d, now), (d: Candidate) => Named(d, name), k);
  }

  lemma OnlyRoot(a: seq<Candidate>, rows: multiset<Candidate>, name: Option<string>, now: int, k: nat)
    requires k < |a| && Usable(a[k], name, now) && Passing(a, rows, (d: Candidate) => Eligible(d, now))
    requires a[k].isRoot
    ensures Only(rows, (d: Candidate) => Named(d, name) && d.isRoot, a[k])
      <==> forall j | 0 <= j < |a| && j != k :: !(Usable(a[j], name, now) && a[j].isRoot)
  {
    hide Only;
    hide Passing;
    OnlyPlace(a, rows, (d: Candidate) => Eligible(d, now), (d: Candidate) => Named(d, name) && d.isRoot, k);
  }

  lemma NewestRoot(a: seq<Candidate>, rows: multiset<Candidate>, name: Option<string>, now: int, k: nat)
    requires k < |a| && Usable(a[k], name, now) && Passing(a, rows, (d: Candidate) => Eligible(d, now))
    requires a[k].isRoot
    ensures Newest(rows, (d: Candidate) => Named(d, name) && d.isRoot, a[k])
      <==> forall j | 0 <= j < |a| && j != k && Usable(a[j], name, now) && a[j].isRoot ::
             UpdatedAt(a[j]) < UpdatedAt(a[k])
  {
    hide Newest;
    hide Passing;
    hide UpdatedAt;
    NewestPlace(a, rows, (d: Candidate) => Eligible(d, now), (d: Candidate) => Named(d, name) && d.isRoot, k);
  }

  lemma OnlyRootsWin(rows: multiset<Candidate>, name: Option<string>, c: Candidate)
    requires !c.isRoot
    ensures Wins(rows, name, c) <==> Only(rows, (d: Candidate) => Named(d, name), c)
  {
  }

  lemma TheOneWins(a: seq<Candidate>, name: Option<string>, now: int, k: nat)
    requires k < |a| && Usable(a[k], name, now)
    ensures Wins(multiset(Filter(a, (d: Candidate) => Eligible(d, now))), name, a[k]) <==> IsTheOne(a, name, now, k)
  {
    var p := (d: Candidate) => Eligible(d, now);
    var rows := multiset(Filter(a, p));
    forall c ensures rows[c] == if p(c) then multiset(a)[c] else 0 {
      FilterCounts(a, p, c);
    }
    assert Passing(a, rows, p);
    hide Passing;
    hide Filter;
    hide Only;
    OnlyNamed(a, rows, name, now, k);
    if a[k].isRoot {
      OnlyRoot(a, rows, name, now, k);
      NewestRoot(a, rows, name, now, k);
    } else {
      OnlyRootsWin(rows, name, a[k]);
    }
    hide Newest;
    hide Usable;
    hide Eligible;
    hide Named;
    hide UpdatedAt;
  }

  /** A link goes to a user exactly if one row of that user is the one. */
  lemma DispatchesToTheOne(a: seq<Candidate>, name: Option<string>, now: int, user: nat)
    ensures Respond(a, name, now) == DispatchQueued(user)
      <==> exists k :: 0 <= k < |a| && a[k].guest == Some(user) && IsTheOne(a, name, now, k)
  {
    DispatchesToTheWinner(a, name, now, user);
    var rows := multiset(Filter(a, (d: Candidate) => Eligible(d, now)));
    hide Filter;
    hide Wins;
    hide Respond;
    hide IsTheOne;
    if WinsFor(rows, name, user) {
      var c: Candidate :| c in rows && c.guest == Some(user) && Wins(rows, name, c);
      AmongEligible(a, now, c);
      WinnerIsNamed(rows, name, c);
      assert c in multiset(a);
      var k :| 0 <= k < |a| && a[k] == c;
      TheOneWins(a, name, now, k);
    }
    if k :| 0 <= k < |a| && a[k].guest == Some(user) && IsTheOne(a, name, now, k) {
      TheOneIsUsable(a, name, now, k);
      TheOneWins(a, name, now, k);
      AmongEligible(a, now, a[k]);
      assert a[k] in multiset(a);
    }
  }

  lemma WinnerIsNamed(rows: multiset<Candidate>, name: Option<string>, c: Candidate)
    requires Wins(rows, name, c)
    ensures name.Some? ==> c.name == name.value
  {
  }

  lemma TheOneIsUsable(a: seq<Candidate>, name: Option<string>, now: int, k: nat)
    requires k < |a| && IsTheOne(a, name, now, k)
    ensures Usable(a[k], name, now)
  {
  }

  /**
   The other answers: no row at all; no row that is linked, approved and not over, with the first reason that some row
   gives; and else rows to choose from, but none that is the one.
   */
  lemma OtherAnswers(a: seq<Candidate>, name: Option<string>, now: int)
    ensures var answer := Respond(a, name, now);
      && (answer == NoMatch <==> a == [])
      && (a != [] && (forall k | 0 <= k < |a| :: !Usable(a[k], None, now)) ==>
            answer == if exists k :: 0 <= k < |a| && !a[k].approved then IneligibleStatus
                      else if exists k :: 0 <= k < |a| && a[k].guest == None then MissingGuestProfile
                      else EventExpired)
      && ((exists k :: 0 <= k < |a| && Usable(a[k], None, now)) ==> answer.DispatchQueued? || answer == Ambiguous)
  {
    SomeEligible(a, now);
    if a != [] && Filter(a, (d: Candidate) => Eligible(d, now)) == [] {
      NoneEligible(a, now);
    } else {
      hide IneligibleReason;
    }
    hide Filter;
    hide Resolve;
  }

  lemma SomeEligible(a: seq<Candidate>, now: int)
    ensures Filter(a, (d: Candidate) => Eligible(d, now)) != []
      <==> exists k :: 0 <= k < |a| && Usable(a[k], None, now)
  {
    var eligible := Filter(a, (d: Candidate) => Eligible(d, now));
    if eligible != [] {
      AmongEligible(a, now, eligible[0]);
      assert eligible[0] in multiset(eligible);
      assert eligible[0] in multiset(a);
      var k :| 0 <= k < |a| && a[k] == eligible[0];
      assert Usable(a[k], None, now);
    }
    if k :| 0 <= k < |a| && Usable(a[k], None, now) {
      AmongEligible(a, now, a[k]);
      assert a[k] in multiset(a);
      assert a[k] in multiset(eligible);
    }
    hide Filter;
  }

  lemma NoneEligible(a: seq<Candidate>, now: int)
    requires a != [] && forall k | 0 <= k < |a| :: !Usable(a[k], None, now)
    ensures IneligibleReason(a, now)
         == if exists k :: 0 <= k < |a| && !a[k].approved then IneligibleStatus
            else if exists k :: 0 <= k < |a| && a[k].guest == None then MissingGuestProfile
            else EventExpired
  {
    assert !Usable(a[0], None, now);
  }
}
