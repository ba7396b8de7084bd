/** The three stores are one store: on one clock they answer every sequence of calls alike. */
module StoreEquivalence {
  import opened Wrappers
  import opened StoreContract
  import opened InMemoryStore
  import opened RedisStore
  import opened DrizzleStore

  /** A call and the instant it is made. */
  datatype Timed<+P> = Timed(op: Op<P>, now: int)

  ghost predicate Chronological<P>(calls: seq<Timed<P>>) {
    forall i, j :: 0 <= i < j < |calls| ==> calls[i].now <= calls[j].now
  }

  /** What the contract answers, call by call. */
  function Replies<P>(r: Records<P>, calls: seq<Timed<P>>): (replies: seq<Reply<P>>)
    ensures |replies| == |calls|
    decreases |calls|
  {
    if calls == [] then []
    else
      var out := Perform(r, calls[0].op, calls[0].now, calls[0].now);
      [out.reply] + Replies(out.records, calls[1..])
  }

  lemma OneMoreReply<P>(replies: seq<Reply<P>>, r: Records<P>, calls: seq<Timed<P>>, i: nat, all: seq<Reply<P>>)
    requires i < |calls| && all == replies + Replies(r, calls[i..])
    ensures var out := Perform(r, calls[i].op, calls[i].now, calls[i].now);
            all == (replies + [out.reply]) + Replies(out.records, calls[i + 1..])
  {
    var out := Perform(r, calls[i].op, calls[i].now, calls[i].now);
    assert calls[i..][1..] == calls[i + 1..];
    assert Replies(r, calls[i..]) == [out.reply] + Replies(out.records, calls[i + 1..]);
  }

  method InMemoryServes<P>(store: InMemoryIdempotencyStore<P>, op: Op<P>, clock: Clock) returns (reply: Reply<P>)
    requires store.Valid() && clock.Monotone()
    modifies store
    ensures store.Valid()
    ensures var out := Perform(old(store.entries), op, clock.check, clock.stamp);
            reply == out.reply && View(store.entries, clock.check) == View(out.records, clock.check)
  {
    match op {
      case Acquire(key, owner, fingerprint, lockTtl) =>
        reply := store.Acquire(key, owner, fingerprint, lockTtl, clock);
      case Complete(key, owner, response, ttl) =>
        var done := store.Complete(key, owner, response, ttl, clock);
        reply := Done(done);
      case Release(key, owner) =>
        var done := store.Release(key, owner, clock);
        reply := Done(done);
      case Extend(key, owner, lockTtl) =>
        var done := store.Extend(key, owner, lockTtl, clock);
        reply := Done(done);
    }
  }

  method InMemoryAnswers<P>(calls: seq<Timed<P>>) returns (replies: seq<Reply<P>>)
    requires Chronological(calls)
    ensures replies == Replies(map[], calls)
  {
    var store := new InMemoryIdempotencyStore<P>();
    replies := [];
    ghost var r: Records<P> := map[];
    for i := 0 to |calls|
      invariant store.Valid() && fresh(store)
      invariant i < |calls| ==> View(store.entries, calls[i].now) == View(r, calls[i].now)
      invariant Replies(map[], calls) == replies + Replies(r, calls[i..])
    {
      var now := calls[i].now;
      OneMoreReply(replies, r, calls, i, Replies(map[], calls));
      PerformRespectsView(store.entries, r, calls[i].op, now, now);
      var reply := InMemoryServes(store, calls[i].op, Clock(now, now, now));
      replies := replies + [reply];
      r := Perform(r, calls[i].op, now, now).records;
      ViewDecidesTheFuture(store.entries, r, now);
    }
  }

  method RedisServes<P(!new)>(store: RedisIdempotencyStore<P>, op: Op<P>, now: int, ghost r: Records<P>) returns (reply: Reply<P>)
    requires RoundTrips(store.json) && Represents(store.json, store.redis.data, r, now)
    requires op.Complete? ==> store.json.carries(op.response)
    modifies store.redis
    ensures var out := Perform(r, op, now, now);
            reply == out.reply && Represents(store.json, store.redis.data, out.records, now)
  {
    match op {
      case Acquire(key, owner, fingerprint, lockTtl) =>
        reply := store.Acquire(key, owner, fingerprint, lockTtl, now, r);
      case Complete(key, owner, response, ttl) =>
        var done := store.Complete(key, owner, response, ttl, now, r);
        reply := Done(done);
      case Release(key, owner) =>
        var done := store.Release(key, owner, now, r);
        reply := Done(done);
      case Extend(key, owner, lockTtl) =>
        var done := store.Extend(key, owner, lockTtl, now, r);
        reply := Done(done);
    }
  }

  method RedisAnswers<P(!new)>(calls: seq<Timed<P>>, json: Json<P>) returns (replies: seq<Reply<P>>)
    requires Chronological(calls) && RoundTrips(json)
    requires forall i :: 0 <= i < |calls| && calls[i].op.Complete? ==> json.carries(calls[i].op.response)
    ensures replies == Replies(map[], calls)
  {
    var redis := new Redis();
    var store := new RedisIdempotencyStore<P>(redis, json);
    replies := [];
    ghost var r: Records<P> := map[];
    for i := 0 to |calls|
      invariant fresh(redis) && store.redis == redis && store.json == json
      invariant i < |calls| ==> Represents(json, redis.data, r, calls[i].now)
      invariant Replies(map[], calls) == replies + Replies(r, calls[i..])
    {
      var now := calls[i].now;
      OneMoreReply(replies, r, calls, i, Replies(map[], calls));
      var reply := RedisServes(store, calls[i].op, now, r);
      replies := replies + [reply];
      r := Perform(r, calls[i].op, now, now).records;
      if i + 1 < |calls| {
        RepresentsLater(json, redis.data, r, now, calls[i + 1].now);
      }
    }
  }

  /** The records of one key. */
  function Only<P>(r: Records<P>, key: string): Records<P> {
    if key in r then map[key := r[key]] else map[]
  }

  /** The contract treats each key on its own. */
  lemma PerformIsLocal<P>(r: Records<P>, op: Op<P>, now: int)
    ensures Perform(Only(r, op.key), op, now, now).reply == Perform(r, op, now, now).reply
    ensures Only(Perform(r, op, now, now).records, op.key) == Perform(Only(r, op.key), op, now, now).records
    ensures forall k :: k != op.key ==> Only(Perform(r, op, now, now).records, k) == Only(r, k)
  {
  }

  ghost predicate TableFor<P>(t: Table<P>, hashOf: string -> string, r: Records<P>) {
    TableOk(t) && forall key: string :: RecordOf(t, hashOf(key), key) == Only(r, key)
  }

  lemma StatementKeepsTable<P>(t: Table<P>, t': Table<P>, hashOf: string -> string, r: Records<P>, op: Op<P>, now: int, reply: Reply<P>)
    requires forall a, b :: hashOf(a) == hashOf(b) ==> a == b
    requires TableFor(t, hashOf, r) && Performs(t, t', hashOf(op.key), op, now, reply)
    ensures reply == Perform(r, op, now, now).reply && TableFor(t', hashOf, Perform(r, op, now, now).records)
  {
    PerformIsLocal(r, op, now);
    assert RecordOf(t, hashOf(op.key), op.key) == Only(r, op.key);
    forall key: string
      ensures RecordOf(t', hashOf(key), key) == Only(Perform(r, op, now, now).records, key)
    {
      if key != op.key {
        KeysAreKeptApart(t, t', hashOf, op, now, reply, key);
        assert RecordOf(t, hashOf(key), key) == Only(r, key);
      }
    }
  }

  method DrizzleServes<P(!new)>(store: DrizzleIdempotencyStore<P>, op: Op<P>, now: int) returns (reply: Reply<P>)
    requires TableOk(store.db.rows)
    modifies store.db
    ensures Performs(old(store.db.rows), store.db.rows, store.hashOf(op.key), op, now, reply)
  {
    var alone: Interference<P> := t => t;
    match op {
      case Acquire(key, owner, fingerprint, lockTtl) =>
        var clock, everyone := seq(5, n => now), seq(10, i => alone);
        ghost var before := store.db.rows;
        var result, rounds := store.Acquire(key, owner, fingerprint, lockTtl, clock, everyone);
        AloneDecidesAtOnce(before, rounds, clock, everyone, store.hashOf(key));
        reply := result.value;
      case Complete(key, owner, response, ttl) =>
        var done := store.Complete(key, owner, response, ttl, now, alone);
        reply := Done(done);
      case Release(key, owner) =>
        var done := store.Release(key, owner, now, alone);
        reply := Done(done);
      case Extend(key, owner, lockTtl) =>
        var done := store.Extend(key, owner, lockTtl, now, alone);
        reply := Done(done);
    }
  }

  /** One client on its own: its `acquire()` decides in the first round. */
  method DrizzleAnswers<P(!new)>(calls: seq<Timed<P>>, hashOf: string -> string) returns (replies: seq<Reply<P>>)
    requires forall a, b :: hashOf(a) == hashOf(b) ==> a == b
    ensures replies == Replies(map[], calls)
  {
    var db := new Database<P>();
    var store := new DrizzleIdempotencyStore<P>(db, hashOf);
    replies := [];
    ghost var r: Records<P> := map[];
    for i := 0 to |calls|
      invariant fresh(db) && store.db == db && store.hashOf == hashOf
      invariant TableFor(db.rows, hashOf, r)
      invariant Replies(map[], calls) == replies + Replies(r, calls[i..])
    {
      var now := calls[i].now;
      OneMoreReply(replies, r, calls, i, Replies(map[], calls));
      ghost var before := db.rows;
      var reply := DrizzleServes(store, calls[i].op, now);
      StatementKeepsTable(before, db.rows, hashOf, r, calls[i].op, now, reply);
      replies := replies + [reply];
      r := Perform(r, calls[i].op, now, now).records;
    }
  }

  /** With nobody else writing, the first round decides: a row that blocks the insert is still there for the select. */
  lemma AloneDecidesAtOnce<P>(start: Table<P>, rounds: seq<Round<P>>, clock: seq<int>, others: seq<Interference<P>>, h: string)
    requires 0 < |rounds| && Run(start, rounds, clock, others)
    requires forall i, t :: 0 <= i < |others| ==> others[i](t) == t
    requires |rounds| > 1 ==> Undecided(rounds[0], h)
    ensures |rounds| == 1 && !Undecided(rounds[0], h)
    ensures rounds[0].atInsert == start && rounds[0].atSelect == rounds[0].afterInsert && rounds[0].now == clock[0]
  {
    assert RunsAt(start, rounds, clock, others, 0);
    assert others[0](start) == start && others[1](rounds[0].afterInsert) == rounds[0].afterInsert;
  }
}
