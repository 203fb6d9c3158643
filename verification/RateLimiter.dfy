/**
 The fixed-window limiter in front of the magic-link request.  The counter store
 is not part of this model beyond `incr` and `expire`.  A request increments its
 address's counter and, if it was the first to do so, sets the expiry afterwards;
 other requests may come in between, and the expiry may never be set.
 */
module RateLimiter {
  import opened Prelude

  type Ip = nat

  const WINDOW_MS := 60 * 60 * 1000
  const MAX_PER_WINDOW := 10

  /** A counter key: how often it was incremented, since when, and when it ends, if that was set. */
  datatype Window = Window(count: nat, start: int, expiresAt: Option<int>)

  type Windows = map<Ip, Window>

  predicate Live(w: Window, now: int) {
    w.expiresAt.Some? ==> now < w.expiresAt.value
  }

  /** `incr`: a key that is missing or expired starts over, without an expiry. */
  function Incremented(windows: Windows, ip: Ip, now: int): Window {
    if ip in windows && Live(windows[ip], now) then windows[ip].(count := windows[ip].count + 1)
    else Window(1, now, None)
  }

  /** What reaches the store. */
  datatype Event = Incr(ip: Ip, at: int) | Expire(ip: Ip, at: int)

  function After(windows: Windows, e: Event): Windows {
    match e
    case Incr(ip, at) => windows[ip := Incremented(windows, ip, at)]
    case Expire(ip, at) =>
      if ip in windows && Live(windows[ip], at) then windows[ip := windows[ip].(expiresAt := Some(at + WINDOW_MS))]
      else windows
  }

  class GuestMagicLinkService {
    /** The store is an optional dependency. */
    const hasStore: bool
    var windows: Windows
    /** All that has reached the store. */
    ghost var history: seq<Event>

    ghost predicate Valid()
      reads this
    {
      windows == AfterAll(history)
    }

    constructor (hasStore: bool)
      ensures Valid() && this.hasStore == hasStore && history == []
    {
      this.hasStore, windows, history := hasStore, map[], [];
    }

    method Increment(ip: Ip, now: int) returns (count: nat)
      requires Valid()
      modifies this
      ensures Valid() && history == old(history) + [Incr(ip, now)]
      ensures count == Incremented(old(windows), ip, now).count && ip in windows && windows[ip].count == count
    {
      var w := if ip in windows && Live(windows[ip], now)
        then windows[ip].(count := windows[ip].count + 1) else Window(1, now, None);
      windows := windows[ip := w];
      count := w.count;
      Snoc(history, Incr(ip, now));
      history := history + [Incr(ip, now)];
    }

    method SetExpiry(ip: Ip, now: int)
      requires Valid()
      modifies this
      ensures Valid() && history == old(history) + [Expire(ip, now)]
    {
      if ip in windows && Live(windows[ip], now) {
        windows := windows[ip := windows[ip].(expiresAt := Some(now + WINDOW_MS))];
      }
      Snoc(history, Expire(ip, now));
      history := history + [Expire(ip, now)];
    }

    /**
     No address or no store, no limit.  Otherwise the request counts, and it passes exactly if it is not limited.
     `expireAt` is when the expiry is set, if it is: by the first request of a window, and with nothing in between.
     */
    method IsRateLimited(ip: Option<Ip>, now: int, expireAt: Option<int>) returns (limited: bool)
      requires Valid()
      modifies this
      ensures Valid()
      ensures ip.None? || !hasStore ==> !limited && history == old(history)
      ensures ip.Some? && hasStore ==>
        && history == old(history) + [Incr(ip.value, now)]
                      + (if expireAt.Some? && Incremented(old(windows), ip.value, now).count == 1
                         then [Expire(ip.value, expireAt.value)] else [])
        && |Passes(history, ip.value)| == |Passes(old(history), ip.value)| + if limited then 0 else 1
    {
      if ip.None? || !hasStore {
        return false;
      }
      var count := Increment(ip.value, now);
      Snoc(old(history), Incr(ip.value, now));
      limited := count > MAX_PER_WINDOW;
      if count == 1 && expireAt.Some? {
        Snoc(history, Expire(ip.value, expireAt.value));
        SetExpiry(ip.value, expireAt.value);
      }
    }
  }

  // ------------------------------------------------------------- whole runs

  function AfterAll(es: seq<Event>): Windows
    decreases |es|
  {
    if es == [] then map[] else After(AfterAll(es[..|es| - 1]), es[|es| - 1])
  }

  /** A request that was let through, and the start of the window it fell into. */
  datatype Pass = Pass(at: int, start: int)

  function Passes(es: seq<Event>, ip: Ip): seq<Pass>
    decreases |es|
  {
    if es == [] then []
    else
      var init, e := es[..|es| - 1], es[|es| - 1];
      if e.Incr? && e.ip == ip && Incremented(AfterAll(init), ip, e.at).count <= MAX_PER_WINDOW
      then Passes(init, ip) + [Pass(e.at, Incremented(AfterAll(init), ip, e.at).start)]
      else Passes(init, ip)
  }

  ghost predicate InTimeOrder(es: seq<Event>) {
    forall i, j | 0 <= i < j < |es| :: es[i].at <= es[j].at
  }

  /** `i` belongs to an earlier window than one that starts at `start`. */
  predicate Earlier(p: Pass, start: int) {
    p.start + WINDOW_MS <= start && p.at < start
  }

  /** Passes lie in their windows, later windows do not overlap earlier ones, and a window holds ten at most. */
  ghost predicate WellSpaced(ps: seq<Pass>) {
    && (forall k | 0 <= k < |ps| :: ps[k].start <= ps[k].at)
    && (forall i, j | 0 <= i < j < |ps| && ps[i].start != ps[j].start :: Earlier(ps[i], ps[j].start))
    && (forall i, j | 0 <= i < j < |ps| && j - i >= MAX_PER_WINDOW :: ps[i].start != ps[j].start)
  }

  /** How the passes so far and the stored counter fit together. */
  ghost predicate Fits(ps: seq<Pass>, windows: Windows, ip: Ip, now: int) {
    && WellSpaced(ps)
    && (ps != [] ==> ip in windows)
    && (ip in windows ==> FitsWindow(ps, windows[ip], now))
  }

  ghost predicate FitsWindow(ps: seq<Pass>, w: Window, now: int) {
    && w.start <= now && w.count >= 1
    && (w.expiresAt.Some? ==> w.start + WINDOW_MS <= w.expiresAt.value)
    && (forall k | 0 <= k < |ps| :: ps[k].at <= now)
    && (forall k | 0 <= k < |ps| && ps[k].start != w.start :: Earlier(ps[k], w.start))
    && (forall k | 0 <= k < |ps| && ps[k].start == w.start && w.expiresAt.Some? :: ps[k].at < w.expiresAt.value)
    && (forall k | 0 <= k < |ps| && ps[k].start == w.start :: |ps| - k <= w.count)
  }

  lemma SpacedSnoc(ps: seq<Pass>, p: Pass)
    requires WellSpaced(ps) && p.start <= p.at
    requires forall k | 0 <= k < |ps| && ps[k].start != p.start :: Earlier(ps[k], p.start)
    requires forall k | 0 <= k < |ps| && ps[k].start == p.start :: |ps| - k < MAX_PER_WINDOW
    ensures WellSpaced(ps + [p])
  {
  }

  lemma FreshWindow(ps: seq<Pass>, windows: Windows, ip: Ip, at: int, now: int)
    requires Fits(ps, windows, ip, now) && now <= at
    requires ip in windows ==> !Live(windows[ip], at)
    ensures Incremented(windows, ip, at) == Window(1, at, None)
    ensures Fits(ps + [Pass(at, at)], After(windows, Incr(ip, at)), ip, at)
  {
    hide WellSpaced;
    var longer := ps + [Pass(at, at)];
    assert forall k | 0 <= k < |ps| :: longer[k] == ps[k] && Earlier(ps[k], at);
    SpacedSnoc(ps, Pass(at, at));
  }

  lemma SameWindow(ps: seq<Pass>, windows: Windows, ip: Ip, at: int, now: int)
    requires Fits(ps, windows, ip, now) && now <= at
    requires ip in windows && Live(windows[ip], at)
    ensures var w := Incremented(windows, ip, at);
      && Fits(ps, After(windows, Incr(ip, at)), ip, at)
      && (w.count <= MAX_PER_WINDOW ==> Fits(ps + [Pass(at, w.start)], After(windows, Incr(ip, at)), ip, at))
  {
    hide WellSpaced;
    var w := Incremented(windows, ip, at);
    if w.count <= MAX_PER_WINDOW {
      var longer := ps + [Pass(at, w.start)];
      assert forall k | 0 <= k < |ps| :: longer[k] == ps[k];
      SpacedSnoc(ps, Pass(at, w.start));
    }
  }

  lemma OtherEventFits(ps: seq<Pass>, windows: Windows, ip: Ip, e: Event, now: int)
    requires Fits(ps, windows, ip, now) && now <= e.at && (e.Incr? ==> e.ip != ip)
    ensures Fits(ps, After(windows, e), ip, e.at)
  {
  }

  /** Windows of one address never overlap and let ten requests through, whenever expiries are set, if at all. */
  lemma {:induction false} AlwaysFits(es: seq<Event>, ip: Ip)
    requires InTimeOrder(es)
    ensures es != [] ==> Fits(Passes(es, ip), AfterAll(es), ip, es[|es| - 1].at)
    ensures es == [] ==> Passes(es, ip) == [] && AfterAll(es) == map[]
    decreases |es|
  {
    if es != [] {
      var init, e := es[..|es| - 1], es[|es| - 1];
      AlwaysFits(init, ip);
      var ps, windows := Passes(init, ip), AfterAll(init);
      var now := if init == [] then e.at else init[|init| - 1].at;
      assert Fits(ps, windows, ip, now);
      if !e.Incr? || e.ip != ip {
        OtherEventFits(ps, windows, ip, e, now);
      } else if ip in windows && Live(windows[ip], e.at) {
        SameWindow(ps, windows, ip, e.at, now);
      } else {
        FreshWindow(ps, windows, ip, e.at, now);
      }
    }
  }

  /**
   Whatever else arrives, however requests interleave, and even if expiries are late or lost: the requests of one
   address that are let through come at most twenty to any span of an hour, ends included, because the twenty-first
   lies beyond it.
   */
  lemma AtMostTwentyAnHour(es: seq<Event>, ip: Ip, i: nat, j: nat)
    requires InTimeOrder(es) && j < |Passes(es, ip)| && i + 20 <= j
    ensures Passes(es, ip)[j].at - Passes(es, ip)[i].at > 3_600_000
  {
    var ps, mid := Passes(es, ip), i + MAX_PER_WINDOW;
    AlwaysFits(es, ip);
    assert es != [];
    assert ps[i].start != ps[mid].start && ps[mid].start != ps[j].start;
    assert Earlier(ps[i], ps[mid].start) && Earlier(ps[mid], ps[j].start);
  }

  // ------------------------------------------------------------- the bound is tight

  function Repeated(e: Event, n: nat): seq<Event> {
    seq(n, i => e)
  }

  /** As long as the counter allows, repeating a request passes every time. */
  lemma {:induction false} RepeatsPass(es: seq<Event>, ip: Ip, at: int, n: nat)
    requires ip in AfterAll(es) && Live(AfterAll(es)[ip], at) && AfterAll(es)[ip].count + n <= MAX_PER_WINDOW
    ensures var more := es + Repeated(Incr(ip, at), n);
      && Passes(more, ip) == Passes(es, ip) + seq(n, i => Pass(at, AfterAll(es)[ip].start))
      && ip in AfterAll(more)
      && AfterAll(more)[ip] == AfterAll(es)[ip].(count := AfterAll(es)[ip].count + n)
    decreases n
  {
    hide Passes;
    hide AfterAll;
    var e := Incr(ip, at);
    if n == 0 {
      assert es + Repeated(e, 0) == es;
    } else {
      var fewer := es + Repeated(e, n - 1);
      RepeatsPass(es, ip, at, n - 1);
      NextRequest(fewer, ip, at);
      assert es + Repeated(e, n) == fewer + [e];
      var p := Pass(at, AfterAll(es)[ip].start);
      assert seq(n, i => p) == seq(n - 1, i => p) + [p];
      assert Passes(es, ip) + seq(n, i => p) == (Passes(es, ip) + seq(n - 1, i => p)) + [p];
    }
  }

  /** One more event. */
  lemma Snoc(es: seq<Event>, e: Event)
    ensures AfterAll(es + [e]) == After(AfterAll(es), e)
    ensures forall ip :: (Passes(es + [e], ip)
      == if e.Incr? && e.ip == ip && Incremented(AfterAll(es), ip, e.at).count <= MAX_PER_WINDOW
         then Passes(es, ip) + [Pass(e.at, Incremented(AfterAll(es), ip, e.at).start)] else Passes(es, ip))
  {
    assert (es + [e])[..|es|] == es;
  }

  /** A request passes exactly when its window has room. */
  lemma NextRequest(es: seq<Event>, ip: Ip, at: int)
    ensures var more, w := es + [Incr(ip, at)], Incremented(AfterAll(es), ip, at);
      && Passes(more, ip)
         == (if w.count <= MAX_PER_WINDOW then Passes(es, ip) + [Pass(at, w.start)] else Passes(es, ip))
      && AfterAll(more) == AfterAll(es)[ip := w]
  {
    Snoc(es, Incr(ip, at));
  }

  /** A first request and its expiry, nine requests at the very end of that window, ten right after it. */
  function Burst(ip: Ip): seq<Event> {
    [Incr(ip, 0), Expire(ip, 0)] + Repeated(Incr(ip, WINDOW_MS - 1), 9)
    + [Incr(ip, WINDOW_MS)] + Repeated(Incr(ip, WINDOW_MS), 9)
  }

  /** Twenty is tight, although a window admits ten: the last nineteen of this burst pass within a millisecond. */
  lemma TwentyIsReached(ip: Ip)
    ensures var ps := Passes(Burst(ip), ip);
      |ps| == 20 && ps[19].at - ps[1].at == 1 && ps[19].at - ps[0].at == 3_600_000
  {
    hide Passes;
    hide AfterAll;
    NothingYet(ip);
    var a := [Incr(ip, 0)];
    NextRequest([], ip, 0);
    assert [] + a == a;
    var b := a + [Expire(ip, 0)];
    Snoc(a, Expire(ip, 0));
    RepeatsPass(b, ip, WINDOW_MS - 1, 9);
    var c := b + Repeated(Incr(ip, WINDOW_MS - 1), 9);
    var d := c + [Incr(ip, WINDOW_MS)];
    NextRequest(c, ip, WINDOW_MS);
    RepeatsPass(d, ip, WINDOW_MS, 9);
    assert Burst(ip) == d + Repeated(Incr(ip, WINDOW_MS), 9);
  }

  lemma NothingYet(ip: Ip)
    ensures Passes([], ip) == [] && AfterAll([]) == map[]
  {
  }

  // ------------------------------------------------------------- shut out for good

  /** No expiry of this address's key is still to come. */
  predicate OnlyRequests(es: seq<Event>, ip: Ip) {
    forall k | 0 <= k < |es| && es[k].Expire? :: es[k].ip != ip
  }

  /** Whatever requests follow, none of this address passes again. */
  ghost predicate ShutOut(es: seq<Event>, ip: Ip) {
    forall more | InTimeOrder(es + more) && OnlyRequests(more, ip) :: Passes(es + more, ip) == Passes(es, ip)
  }

  predicate IsFull(windows: Windows, ip: Ip) {
    ip in windows && windows[ip].expiresAt.None? && windows[ip].count >= 10
  }

  lemma {:induction false} FullStaysFull(es: seq<Event>, more: seq<Event>, ip: Ip)
    requires IsFull(AfterAll(es), ip) && OnlyRequests(more, ip)
    ensures Passes(es + more, ip) == Passes(es, ip) && IsFull(AfterAll(es + more), ip)
    decreases |more|
  {
    if more == [] {
      assert es + more == es;
    } else {
      var init, e := more[..|more| - 1], more[|more| - 1];
      FullStaysFull(es, init, ip);
      assert es + more == (es + init) + [e];
      Snoc(es + init, e);
    }
  }

  /** An address is shut out for good if and only if its key has no expiry and already counted ten requests. */
  lemma ShutOutExactlyWhenFull(es: seq<Event>, ip: Ip)
    requires InTimeOrder(es)
    ensures ShutOut(es, ip) <==> IsFull(AfterAll(es), ip)
  {
    if IsFull(AfterAll(es), ip) {
      forall more | InTimeOrder(es + more) && OnlyRequests(more, ip) ensures Passes(es + more, ip) == Passes(es, ip) {
        FullStaysFull(es, more, ip);
      }
    } else {
      RoomAgain(es, ip);
    }
  }

  /** While the key is not full, a request passes, at the latest when the key expires. */
  lemma RoomAgain(es: seq<Event>, ip: Ip)
    requires InTimeOrder(es) && !IsFull(AfterAll(es), ip)
    ensures !ShutOut(es, ip)
  {
    hide Passes;
    hide AfterAll;
    var windows := AfterAll(es);
    var last := if es == [] then 0 else es[|es| - 1].at;
    var at := if ip in windows && windows[ip].expiresAt.Some? && windows[ip].expiresAt.value > last
      then windows[ip].expiresAt.value else last;
    NextRequest(es, ip, at);
    assert Incremented(windows, ip, at).count <= MAX_PER_WINDOW;
    assert InTimeOrder(es + [Incr(ip, at)]) && OnlyRequests([Incr(ip, at)], ip);
    assert Passes(es + [Incr(ip, at)], ip) != Passes(es, ip);
  }
}
