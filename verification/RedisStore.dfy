/**
 * The Redis store: four Lua scripts over one hash per record, each script one
 * atomic step that sees one frozen clock, on the hash commands they call.
 */
module RedisStore {
  import opened Wrappers
  import opened StoreContract
  import opened Decimal

  /** A hash and the millisecond it expires at, if it does. */
  datatype HashEntry = HashEntry(hash: map<string, string>, expiresAt: Option<int>)

  type Keyspace = map<string, HashEntry>

  /** What the ACQUIRE script returns: `{1}`, or `{0, state, fp, resp}` with nils for missing fields. */
  datatype AcquireReply =
    | Won
    | Lost(state: Option<string>, fp: Option<string>, resp: Option<string>)

  /** The text form a response is kept in, and the responses it carries unchanged. */
  datatype Json<!P> = Json(stringify: P -> string, parse: string -> P, carries: P -> bool)

  ghost predicate RoundTrips<P(!new)>(json: Json<P>) {
    forall p: P :: json.carries(p) ==> json.parse(json.stringify(p)) == p
  }

  predicate Alive(data: Keyspace, key: string, now: int) {
    key in data && (data[key].expiresAt.None? || now < data[key].expiresAt.value)
  }

  function Prune(data: Keyspace, key: string, now: int): Keyspace {
    if key in data && !Alive(data, key, now) then data - {key} else data
  }

  /** The commands the scripts call. */
  class Redis {
    var data: Keyspace

    constructor ()
      ensures data == map[]
    {
      data := map[];
    }

    /** Whether a key exists; an expired one is deleted on the way. */
    method Exists(key: string, now: int) returns (found: bool)
      modifies this
      ensures found == Alive(old(data), key, now) && data == Prune(old(data), key, now)
    {
      if key in data && data[key].expiresAt.Some? && data[key].expiresAt.value <= now {
        data := data - {key};
        return false;
      }
      return key in data;
    }

    method HSet(key: string, fields: seq<(string, string)>, now: int)
      modifies this
      ensures data == old(data)[key := if Alive(old(data), key, now)
                                       then HashEntry(SetAll(old(data)[key].hash, fields), old(data)[key].expiresAt)
                                       else HashEntry(SetAll(map[], fields), None)]
    {
      var found := Exists(key, now);
      var entry := if found then data[key] else HashEntry(map[], None);
      for i := 0 to |fields|
        invariant SetAll(entry.hash, fields[i..]) == SetAll(if found then old(data)[key].hash else map[], fields)
        invariant entry.expiresAt == if found then old(data)[key].expiresAt else None
      {
        assert fields[i..][1..] == fields[i + 1..];
        entry := entry.(hash := entry.hash[fields[i].0 := fields[i].1]);
      }
      data := data[key := entry];
    }

    method HGet(key: string, field: string, now: int) returns (value: Option<string>)
      modifies this
      ensures data == Prune(old(data), key, now)
      ensures value == if Alive(old(data), key, now) && field in old(data)[key].hash
                       then Some(old(data)[key].hash[field]) else None
    {
      var found := Exists(key, now);
      value := if found && field in data[key].hash then Some(data[key].hash[field]) else None;
    }

    method HDel(key: string, field: string, now: int)
      modifies this
      ensures data == if Alive(old(data), key, now)
                      then old(data)[key := old(data)[key].(hash := old(data)[key].hash - {field})]
                      else Prune(old(data), key, now)
    {
      var found := Exists(key, now);
      if found {
        data := data[key := data[key].(hash := data[key].hash - {field})];
      }
    }

    /** The argument arrives as text; one that is not a whole number is an error, and nothing changes. */
    method PExpire(key: string, ms: string, now: int) returns (ok: bool)
      modifies this
      ensures ok <==> IntOf(ms).Some?
      ensures data == if !ok then old(data)
                      else if Alive(old(data), key, now)
                      then old(data)[key := old(data)[key].(expiresAt := Some(now + IntOf(ms).value))]
                      else Prune(old(data), key, now)
    {
      if IntOf(ms).None? {
        return false;
      }
      var found := Exists(key, now);
      if found {
        data := data[key := data[key].(expiresAt := Some(now + IntOf(ms).value))];
      }
      return true;
    }

    method Del(key: string, now: int) returns (deleted: bool)
      modifies this
      ensures deleted == Alive(old(data), key, now) && data == old(data) - {key}
    {
      deleted := Exists(key, now);
      data := data - {key};
    }
  }

  function SetAll(hash: map<string, string>, fields: seq<(string, string)>): map<string, string>
    decreases |fields|
  {
    if fields == [] then hash else SetAll(hash[fields[0].0 := fields[0].1], fields[1..])
  }

  function RecordKey(key: string): string { "idem:" + key }

  /** A lock's hash has an owner and no response; a completed record's has a response and no owner. */
  ghost predicate HashFor<P>(json: Json<P>, e: Entry<P>, h: HashEntry) {
    && h.expiresAt == Some(e.expiresAt)
    && match e
       case InFlight(fingerprint, owner, _) =>
         h.hash == map["state" := "in-flight", "fp" := fingerprint, "owner" := owner]
       case Completed(fingerprint, response, _) =>
         && h.hash.Keys == {"state", "fp", "resp"}
         && h.hash["state"] == "completed" && h.hash["fp"] == fingerprint
         && json.parse(h.hash["resp"]) == response
  }

  /** The keyspace holds exactly the live records of `r`, one hash each. */
  ghost predicate Represents<P>(json: Json<P>, data: Keyspace, r: Records<P>, now: int) {
    forall key: string ::
      && (Live(r, key, now) <==> Alive(data, RecordKey(key), now))
      && (Live(r, key, now) ==> HashFor(json, r[key], data[RecordKey(key)]))
  }

  /** Server-side expiry is the contract's expiry: the representation holds for as long as nothing is written. */
  lemma RepresentsLater<P>(json: Json<P>, data: Keyspace, r: Records<P>, now: int, later: int)
    requires Represents(json, data, r, now) && now <= later
    ensures Represents(json, data, r, later)
  {
    forall key: string
      ensures Live(r, key, later) <==> Alive(data, RecordKey(key), later)
      ensures Live(r, key, later) ==> HashFor(json, r[key], data[RecordKey(key)])
    {
      assert Live(r, key, now) <==> Alive(data, RecordKey(key), now);
    }
  }

  /** A write to one record's hash leaves the representation of every other record alone. */
  lemma OneKeyWritten<P>(json: Json<P>, data: Keyspace, data': Keyspace, r: Records<P>, r': Records<P>, key: string, now: int)
    requires Represents(json, data, r, now)
    requires forall k :: k != RecordKey(key) ==> (Alive(data', k, now) <==> Alive(data, k, now))
    requires forall k :: k != RecordKey(key) && Alive(data, k, now) ==> k in data' && data'[k] == data[k]
    requires forall k :: k != key ==> (Live(r', k, now) <==> Live(r, k, now))
    requires forall k :: k != key && Live(r, k, now) ==> k in r' && r'[k] == r[k]
    requires Live(r', key, now) <==> Alive(data', RecordKey(key), now)
    requires Live(r', key, now) ==> HashFor(json, r'[key], data'[RecordKey(key)])
    ensures Represents(json, data', r', now)
  {
    forall k: string
      ensures Live(r', k, now) <==> Alive(data', RecordKey(k), now)
      ensures Live(r', k, now) ==> HashFor(json, r'[k], data'[RecordKey(k)])
    {
      if k != key {
        assert RecordKey(k)[5..] == k && RecordKey(key)[5..] == key;
        assert RecordKey(k) != RecordKey(key);
      }
    }
  }

  /** A fresh lock hash represents the lock the contract puts in the place of a dead record. */
  lemma LockRepresents<P>(json: Json<P>, data: Keyspace, r: Records<P>, key: string, fp: string, owner: string, lockTtl: int, now: int)
    requires Represents(json, data, r, now) && !Alive(data, RecordKey(key), now)
    ensures Represents(json,
      data[RecordKey(key) := HashEntry(map["state" := "in-flight", "fp" := fp, "owner" := owner], Some(now + lockTtl))],
      Perform(r, Op<P>.Acquire(key, owner, fp, lockTtl), now, now).records, now)
  {
    assert Live(r, key, now) <==> Alive(data, RecordKey(key), now);
    var hash := map["state" := "in-flight", "fp" := fp, "owner" := owner];
    var data' := data[RecordKey(key) := HashEntry(hash, Some(now + lockTtl))];
    var r' := Perform(r, Op<P>.Acquire(key, owner, fp, lockTtl), now, now).records;
    OneKeyWritten(json, data, data', r, r', key, now);
  }

  /** The owner field of a live hash is the contract's lock holder. */
  lemma OwnerHolds<P>(json: Json<P>, data: Keyspace, r: Records<P>, key: string, owner: string, now: int)
    requires Represents(json, data, r, now)
    ensures OwnedBy(data, RecordKey(key), owner, now) <==> Holds(r, key, owner, now)
  {
    assert Live(r, key, now) <==> Alive(data, RecordKey(key), now);
  }

  /** Dropping an expired hash changes nothing that is represented. */
  lemma PrunedRepresents<P>(json: Json<P>, data: Keyspace, r: Records<P>, key: string, now: int)
    requires Represents(json, data, r, now)
    ensures Represents(json, Prune(data, RecordKey(key), now), r, now)
  {
    OneKeyWritten(json, data, Prune(data, RecordKey(key), now), r, r, key, now);
  }

  /** A lock's hash with a response for its owner represents the completed record. */
  lemma CompletedRepresents<P>(json: Json<P>, data: Keyspace, r: Records<P>, key: string, owner: string, resp: string, ttl: int, now: int)
    requires Represents(json, data, r, now) && OwnedBy(data, RecordKey(key), owner, now) && Holds(r, key, owner, now)
    ensures Represents(json,
      data[RecordKey(key) := HashEntry(
        data[RecordKey(key)].hash["state" := "completed"]["resp" := resp] - {"owner"}, Some(now + ttl))],
      Perform(r, Op<P>.Complete(key, owner, json.parse(resp), ttl), now, now).records, now)
  {
    var hash := data[RecordKey(key)].hash["state" := "completed"]["resp" := resp] - {"owner"};
    var data' := data[RecordKey(key) := HashEntry(hash, Some(now + ttl))];
    var r' := Perform(r, Op<P>.Complete(key, owner, json.parse(resp), ttl), now, now).records;
    assert HashFor(json, r[key], data[RecordKey(key)]);
    assert hash.Keys == {"state", "fp", "resp"};
    OneKeyWritten(json, data, data', r, r', key, now);
  }

  /** The fields of a live hash say which entry it is. */
  lemma FoundDecodes<P>(json: Json<P>, e: Entry<P>, h: HashEntry)
    requires HashFor(json, e, h)
    ensures "state" in h.hash && "fp" in h.hash && h.hash["fp"] == e.fingerprint
    ensures e.Completed? <==> h.hash["state"] == "completed"
    ensures e.Completed? ==> "resp" in h.hash && json.parse(h.hash["resp"]) == e.response
  {
    assert "in-flight"[0] != "completed"[0];
  }

  class RedisIdempotencyStore<P(!new)> {
    const redis: Redis
    const json: Json<P>

    constructor (redis: Redis, json: Json<P>)
      ensures this.redis == redis && this.json == json
    {
      this.redis := redis;
      this.json := json;
    }

    method Acquire(key: string, owner: string, fingerprint: string, lockTtl: int, now: int, ghost r: Records<P>)
      returns (reply: Reply<P>)
      requires Represents(json, redis.data, r, now)
      modifies redis
      ensures var out := Perform(r, Op.Acquire(key, owner, fingerprint, lockTtl), now, now);
              reply == out.reply && Represents(json, redis.data, out.records, now)
    {
      ghost var before := redis.data;
      assert Live(r, key, now) <==> Alive(before, RecordKey(key), now);
      var answer := AcquireScript(RecordKey(key), fingerprint, owner, lockTtl, now);
      if answer.Won? {
        LockRepresents(json, before, r, key, fingerprint, owner, lockTtl, now);
        return Acquired;
      }
      FoundDecodes(json, r[key], before[RecordKey(key)]);
      reply := if answer.state == Some("completed")
               then FoundCompleted(answer.fp.value, json.parse(answer.resp.value))
               else FoundInFlight(answer.fp.value);
    }

    method AcquireScript(key: string, fp: string, owner: string, lockTtl: int, now: int) returns (reply: AcquireReply)
      modifies redis
      ensures reply.Won? <==> !Alive(old(redis.data), key, now)
      ensures reply.Won? ==>
                redis.data == old(redis.data)[key :=
                  HashEntry(map["state" := "in-flight", "fp" := fp, "owner" := owner], Some(now + lockTtl))]
      ensures reply.Lost? ==>
                && redis.data == old(redis.data)
                && var hash := old(redis.data)[key].hash;
                   reply == Lost(if "state" in hash then Some(hash["state"]) else None,
                                 if "fp" in hash then Some(hash["fp"]) else None,
                                 if "resp" in hash then Some(hash["resp"]) else None)
    {
      var exists_ := redis.Exists(key, now);
      if !exists_ {
        redis.HSet(key, [("state", "in-flight"), ("fp", fp), ("owner", owner)], now);
        ThreeFields(("state", "in-flight"), ("fp", fp), ("owner", owner));
        IntRoundTrip(lockTtl);
        var expires := redis.PExpire(key, IntText(lockTtl), now);
        return Won;
      }
      var state := redis.HGet(key, "state", now);
      var storedFp := redis.HGet(key, "fp", now);
      var resp := redis.HGet(key, "resp", now);
      return Lost(state, storedFp, resp);
    }

    method Complete(key: string, owner: string, response: P, ttl: int, now: int, ghost r: Records<P>)
      returns (done: bool)
      requires RoundTrips(json) && json.carries(response) && Represents(json, redis.data, r, now)
      modifies redis
      ensures var out := Perform(r, Op.Complete(key, owner, response, ttl), now, now);
              Done(done) == out.reply && Represents(json, redis.data, out.records, now)
    {
      ghost var before := redis.data;
      OwnerHolds(json, before, r, key, owner, now);
      done := CompleteScript(RecordKey(key), owner, json.stringify(response), ttl, now);
      if done {
        CompletedRepresents(json, before, r, key, owner, json.stringify(response), ttl, now);
      } else {
        PrunedRepresents(json, before, r, key, now);
      }
    }

    method CompleteScript(key: string, owner: string, resp: string, ttl: int, now: int) returns (done: bool)
      modifies redis
      ensures done <==> OwnedBy(old(redis.data), key, owner, now)
      ensures redis.data ==
              if done then old(redis.data)[key :=
                HashEntry(old(redis.data)[key].hash["state" := "completed"]["resp" := resp] - {"owner"}, Some(now + ttl))]
              else Prune(old(redis.data), key, now)
    {
      var holder := redis.HGet(key, "owner", now);
      if holder != Some(owner) {
        return false;
      }
      redis.HSet(key, [("state", "completed"), ("resp", resp)], now);
      TwoFields(old(redis.data)[key].hash, ("state", "completed"), ("resp", resp));
      redis.HDel(key, "owner", now);
      IntRoundTrip(ttl);
      var expires := redis.PExpire(key, IntText(ttl), now);
      return true;
    }

    method Release(key: string, owner: string, now: int, ghost r: Records<P>) returns (done: bool)
      requires Represents(json, redis.data, r, now)
      modifies redis
      ensures var out := Perform(r, Op.Release(key, owner), now, now);
              Done(done) == out.reply && Represents(json, redis.data, out.records, now)
    {
      ghost var before := redis.data;
      ghost var out := Perform(r, Op.Release(key, owner), now, now);
      assert Live(r, key, now) <==> Alive(before, RecordKey(key), now);
      var holder := redis.HGet(RecordKey(key), "owner", now);
      if holder == Some(owner) {
        done := redis.Del(RecordKey(key), now);
      } else {
        done := false;
      }
      OneKeyWritten(json, before, redis.data, r, out.records, key, now);
    }

    method Extend(key: string, owner: string, lockTtl: int, now: int, ghost r: Records<P>) returns (done: bool)
      requires Represents(json, redis.data, r, now)
      modifies redis
      ensures var out := Perform(r, Op.Extend(key, owner, lockTtl), now, now);
              Done(done) == out.reply && Represents(json, redis.data, out.records, now)
    {
      ghost var before := redis.data;
      ghost var out := Perform(r, Op.Extend(key, owner, lockTtl), now, now);
      assert Live(r, key, now) <==> Alive(before, RecordKey(key), now);
      var holder := redis.HGet(RecordKey(key), "owner", now);
      if holder != Some(owner) {
        done := false;
      } else {
        IntRoundTrip(lockTtl);
        var expires := redis.PExpire(RecordKey(key), IntText(lockTtl), now);
        done := true;
      }
      OneKeyWritten(json, before, redis.data, r, out.records, key, now);
    }
  }

  predicate OwnedBy(data: Keyspace, key: string, owner: string, now: int) {
    Alive(data, key, now) && "owner" in data[key].hash && data[key].hash["owner"] == owner
  }

  lemma ThreeFields(a: (string, string), b: (string, string), c: (string, string))
    ensures SetAll(map[], [a, b, c]) == map[][a.0 := a.1][b.0 := b.1][c.0 := c.1]
  {
    calc {
      SetAll(map[], [a, b, c]);
      { assert [a, b, c][1..] == [b, c]; }
      SetAll(map[][a.0 := a.1], [b, c]);
      { TwoFields(map[][a.0 := a.1], b, c); }
      map[][a.0 := a.1][b.0 := b.1][c.0 := c.1];
    }
  }

  lemma TwoFields(hash: map<string, string>, a: (string, string), b: (string, string))
    ensures SetAll(hash, [a, b]) == hash[a.0 := a.1][b.0 := b.1]
  {
    var first := hash[a.0 := a.1];
    assert [a, b][1..] == [b] && [b][1..] == [];
    assert SetAll(first, [b]) == SetAll(first[b.0 := b.1], []);
  }
}
