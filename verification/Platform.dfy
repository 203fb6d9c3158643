/**
 What the services share: the database, the cache, the message producer, the job
 scheduler and the clock.  Each method is one call to one of them.
 */
module Platform {
  import opened Prelude
  import opened Store
  import opened Forest
  import opened Operations

  class Backend {
    var now: int
    var rows: Rows
    var nextId: Id
    var cache: map<Token, Payload>
    var nextToken: Token
    var cooldowns: map<Id, int>
    var settings: map<EventId, Settings>
    var jobs: set<TicketJob>
    var log: seq<Fact>
    const config: Config

    constructor (now: int, config: Config)
      ensures View() == Initial(now, config)
    {
      this.now, this.config := now, config;
      rows, nextId, cache, nextToken, cooldowns := map[], 0, map[], 0, map[];
      settings, jobs, log := map[], {}, [];
    }

    /** The state as the specifications speak of it. */
    ghost function View(): State
      reads this
    {
      State(now, rows, nextId, cache, nextToken, cooldowns, settings, jobs, log, config)
    }

    // -------------------------------------------------------------- database

    method Update(id: Id, r: Row)
      requires id in rows
      modifies `rows
      ensures View() == Put(old(View()), id, r)
    {
      rows := rows[id := r];
    }

    method Create(r: Row) returns (id: Id)
      modifies `rows, `nextId
      ensures View() == Insert(old(View()), r) && id == old(nextId)
    {
      id := nextId;
      rows := rows[id := r];
      nextId := nextId + 1;
    }

    /** Deletes rows; the foreign key takes their descendants along. */
    method Delete(ids: set<Id>)
      modifies `rows
      ensures View() == DeleteIds(old(View()), ids)
    {
      rows := Cascade(rows, ids);
    }

    /** `findMany` on a set of rows: each once, in some order. */
    method InSomeOrder(ids: set<Id>) returns (order: seq<Id>)
      ensures Lists(order, ids)
    {
      order := [];
      var rest := ids;
      while rest != {}
        invariant rest <= ids
        invariant Lists(order, ids - rest)
        decreases |rest|
      {
        var id :| id in rest;
        assert forall i | i in ids - (rest - {id}) :: i in order + [id];
        order, rest := order + [id], rest - {id};
      }
      assert ids - rest == ids;
    }

    // ----------------------------------------------------------------- cache

    method CacheSet(p: Payload) returns (token: Token)
      modifies `cache, `nextToken
      ensures token == old(nextToken)
      ensures View() == old(View()).(cache := old(cache)[token := p], nextToken := token + 1)
    {
      token := nextToken;
      cache := cache[token := p];
      nextToken := nextToken + 1;
    }

    method CacheDelete(token: Option<Token>)
      modifies `cache
      ensures View() == Forget(old(View()), token)
    {
      if token.Some? {
        cache := cache - {token.value};
      }
    }

    // -------------------------------------------------------------- messages

    method Send(f: Fact)
      modifies `log
      ensures View() == Emit(old(View()), f)
    {
      log := log + [f];
    }
  }
}
