/** The event-access projection: last writer wins by the time a change occurred. */
module Access {
  import opened Prelude

  datatype Key = Key(event: nat, user: nat)

  datatype Rights = Rights(permissions: set<string>, roles: set<string>)

  datatype Entry = Entry(rights: Rights, occurredAt: Option<int>)

  datatype Message = Message(key: Key, rights: Rights, occurredAt: int)

  type Projection = map<Key, Entry>

  predicate IsStale(p: Projection, m: Message) {
    m.key in p && p[m.key].occurredAt.Some? && m.occurredAt < p[m.key].occurredAt.value
  }

  function Receive(p: Projection, m: Message): Projection {
    if IsStale(p, m) then p else p[m.key := Entry(m.rights, Some(m.occurredAt))]
  }

  function ReceiveAll(p: Projection, ms: seq<Message>): Projection
    decreases |ms|
  {
    if ms == [] then p else Receive(ReceiveAll(p, ms[..|ms| - 1]), ms[|ms| - 1])
  }

  /** The three projections; of roles and settings only their removal matters here. */
  class EventRoleHandler {
    var access: Projection
    var roles: map<Key, string>
    var settings: set<nat>

    constructor ()
      ensures access == map[] && roles == map[] && settings == {}
    {
      access, roles, settings := map[], map[], {};
    }

    /** Read the stored time, compare, upsert. */
    method HandleUserAccessChanged(m: Message)
      modifies `access
      ensures access == Receive(old(access), m)
    {
      if m.key in access {
        var existing := access[m.key];
        if existing.occurredAt.Some? && m.occurredAt < existing.occurredAt.value {
          return;
        }
      }
      access := access[m.key := Entry(m.rights, Some(m.occurredAt))];
    }

    method HandleEventDeleted(events: set<nat>)
      modifies this
      ensures access == Without(old(access), events)
      ensures roles.Keys == set key | key in old(roles) && key.event !in events
      ensures forall key | key in roles :: roles[key] == old(roles)[key]
      ensures settings == old(settings) - events
    {
      roles := roles - set key | key in roles && key.event in events;
      settings := settings - events;
      access := access - set key | key in access && key.event in events;
    }
  }

  function Without(p: Projection, events: set<nat>): Projection {
    p - set key | key in p && key.event in events
  }

  // -------------------------------------------------------------- convergence

  ghost predicate IsNewest(ms: seq<Message>, m: Message) {
    m in ms && forall other | other in ms && other.key == m.key :: other.occurredAt <= m.occurredAt
  }

  /** What is stored for a key is a newest message about it, and it is there as soon as there is one. */
  lemma {:induction false} StoresANewest(ms: seq<Message>, key: Key)
    ensures var p := ReceiveAll(map[], ms);
      && (key in p <==> exists m :: m in ms && m.key == key)
      && (key in p ==>
            exists m: Message :: m.key == key && IsNewest(ms, m) && p[key] == Entry(m.rights, Some(m.occurredAt)))
    decreases |ms|
  {
    if ms != [] {
      var init, last := ms[..|ms| - 1], ms[|ms| - 1];
      StoresANewest(init, key);
      var before := ReceiveAll(map[], init);
      assert forall m :: m in ms <==> m in init || m == last;
      if key in before {
        var m: Message :| m.key == key && IsNewest(init, m) && before[key] == Entry(m.rights, Some(m.occurredAt));
        if last.key == key && last.occurredAt >= m.occurredAt {
          assert IsNewest(ms, last);
        } else {
          assert IsNewest(ms, m);
        }
      } else if last.key == key {
        assert IsNewest(ms, last);
      }
    }
  }

  /** Delivered in any order, and any of them more than once. */
  ghost predicate SameMessages(a: seq<Message>, b: seq<Message>) {
    forall m :: m in a <==> m in b
  }

  function Stored(ms: seq<Message>, key: Key): Option<Entry> {
    var p := ReceiveAll(map[], ms);
    if key in p then Some(p[key]) else None
  }

  ghost predicate AllOrdersAgree(ms: seq<Message>, key: Key) {
    forall a, b | SameMessages(a, ms) && SameMessages(b, ms) :: Stored(a, key) == Stored(b, key)
  }

  /** The newest messages about the key all grant the same. */
  ghost predicate NewestAgree(ms: seq<Message>, key: Key) {
    forall m, n | IsNewest(ms, m) && IsNewest(ms, n) && m.key == key && n.key == key :: m.rights == n.rights
  }

  lemma StoredOf(a: seq<Message>, ms: seq<Message>, key: Key, m: Message)
    requires SameMessages(a, ms) && IsNewest(ms, m) && m.key == key && NewestAgree(ms, key)
    ensures Stored(a, key) == Some(Entry(m.rights, Some(m.occurredAt)))
  {
    StoresANewest(a, key);
    assert m in a;
    var p := ReceiveAll(map[], a);
    assert key in p;
    var n: Message :| n.key == key && IsNewest(a, n) && p[key] == Entry(n.rights, Some(n.occurredAt));
    assert IsNewest(ms, n);
  }

  lemma NothingStored(a: seq<Message>, ms: seq<Message>, key: Key)
    requires SameMessages(a, ms) && forall m | m in ms :: m.key != key
    ensures Stored(a, key) == None
  {
    StoresANewest(a, key);
  }

  /** A newest message delivered last is the one that stays. */
  lemma LastNewestStays(ms: seq<Message>, m: Message)
    requires IsNewest(ms, m)
    ensures SameMessages(ms + [m], ms)
    ensures Stored(ms + [m], m.key) == Some(Entry(m.rights, Some(m.occurredAt)))
  {
    var all := ms + [m];
    assert all[..|all| - 1] == ms;
    StoresANewest(ms, m.key);
  }

  /** The newest message wins whatever the order and the duplicates, exactly when the newest ones do not disagree. */
  lemma ConvergesExactlyWhenNewestAgree(ms: seq<Message>, key: Key)
    ensures AllOrdersAgree(ms, key) <==> NewestAgree(ms, key)
  {
    if NewestAgree(ms, key) {
      forall a, b | SameMessages(a, ms) && SameMessages(b, ms) ensures Stored(a, key) == Stored(b, key) {
        StoresANewest(ms, key);
        if m: Message :| m.key == key && IsNewest(ms, m) {
          StoredOf(a, ms, key, m);
          StoredOf(b, ms, key, m);
        } else {
          NothingStored(a, ms, key);
          NothingStored(b, ms, key);
        }
      }
    } else {
      var m, n :| IsNewest(ms, m) && IsNewest(ms, n) && m.key == key && n.key == key && m.rights != n.rights;
      LastNewestStays(ms, m);
      LastNewestStays(ms, n);
      assert Stored(ms + [m], key) != Stored(ms + [n], key);
    }
  }

  /** With distinct times per key the projection therefore ends in the newest message, in any order. */
  lemma DistinctTimesConverge(ms: seq<Message>, a: seq<Message>, m: Message)
    requires forall x, y | x in ms && y in ms && x.key == y.key && x.occurredAt == y.occurredAt :: x == y
    requires SameMessages(a, ms) && IsNewest(ms, m)
    ensures Stored(a, m.key) == Some(Entry(m.rights, Some(m.occurredAt)))
  {
    assert NewestAgree(ms, m.key);
    StoredOf(a, ms, m.key, m);
  }

  // ---------------------------------------------------------- with deletions

  datatype Happening = Changed(message: Message) | Deleted(events: set<nat>)

  function Apply(p: Projection, h: Happening): Projection {
    match h
    case Changed(m) => Receive(p, m)
    case Deleted(events) => Without(p, events)
  }

  function ApplyAll(hs: seq<Happening>): Projection
    decreases |hs|
  {
    if hs == [] then map[] else Apply(ApplyAll(hs[..|hs| - 1]), hs[|hs| - 1])
  }

  /** The messages about a key since its event was last deleted. */
  function SinceDeletion(hs: seq<Happening>, key: Key): seq<Message>
    decreases |hs|
  {
    if hs == [] then []
    else
      var earlier := SinceDeletion(hs[..|hs| - 1], key);
      match hs[|hs| - 1]
      case Changed(m) => if m.key == key then earlier + [m] else earlier
      case Deleted(events) => if key.event in events then [] else earlier
  }

  /** Entries of different keys do not meet. */
  lemma {:induction false} SameAsSinceDeletion(hs: seq<Happening>, key: Key)
    ensures var p, q := ApplyAll(hs), ReceiveAll(map[], SinceDeletion(hs, key));
      (key in p <==> key in q) && (key in p ==> p[key] == q[key])
    decreases |hs|
  {
    if hs != [] {
      var init, last := hs[..|hs| - 1], hs[|hs| - 1];
      SameAsSinceDeletion(init, key);
      if last.Changed? && last.message.key == key {
        var ms := SinceDeletion(init, key);
        assert (ms + [last.message])[..|ms|] == ms;
      }
    }
  }

  /**
   After any run of messages and event deletions: what is stored for a key is a newest message about it since its
   event was last deleted, and nothing is stored exactly when there was none since.
   */
  lemma StoresANewestSinceDeletion(hs: seq<Happening>, key: Key)
    ensures var p, ms := ApplyAll(hs), SinceDeletion(hs, key);
      && (key in p <==> ms != [])
      && (key in p ==>
            exists m: Message :: m.key == key && IsNewest(ms, m) && p[key] == Entry(m.rights, Some(m.occurredAt)))
  {
    var ms := SinceDeletion(hs, key);
    SameAsSinceDeletion(hs, key);
    StoresANewest(ms, key);
    AboutTheKey(hs, key);
    if ms != [] {
      assert ms[0] in ms;
    }
  }

  lemma {:induction false} AboutTheKey(hs: seq<Happening>, key: Key)
    ensures forall m | m in SinceDeletion(hs, key) :: m.key == key
    decreases |hs|
  {
    if hs != [] {
      AboutTheKey(hs[..|hs| - 1], key);
    }
  }
}
