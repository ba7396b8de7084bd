/**
 * The PostgreSQL store: one table, each SQL statement one atomic step, and any
 * number of other clients writing between a client's statements. A client
 * reads its clock before it sends a statement.
 */
module DrizzleStore {
  import opened Wrappers
  import opened StoreContract

  /** A row: an in-flight lock (owner, no response) or a completed record (response, no owner). */
  datatype Row<+P> = Row(key: string, fingerprint: string, owner: Option<string>, response: Option<P>, expiresAt: int)

  type Table<+P> = map<string, Row<P>>

  /** Everything other clients do to the table between two statements of this one. */
  type Interference<!P> = Table<P> -> Table<P>

  predicate RowOk<P>(row: Row<P>) {
    row.owner.Some? <==> row.response.None?
  }

  predicate TableOk<P>(t: Table<P>) {
    forall h :: h in t ==> RowOk(t[h])
  }

  /** Other clients keep rows well formed; nothing else is asked of them. */
  ghost predicate Keeps<P(!new)>(others: Interference<P>) {
    forall t :: TableOk(t) ==> TableOk(others(t))
  }

  function EntryOf<P>(row: Row<P>): Entry<P>
    requires RowOk(row)
  {
    if row.owner.Some? then InFlight(row.fingerprint, row.owner.value, row.expiresAt)
    else Completed(row.fingerprint, row.response.value, row.expiresAt)
  }

  /** What the table says about one key, in the contract's terms. */
  function RecordOf<P>(t: Table<P>, h: string, key: string): Records<P>
    requires TableOk(t)
  {
    if h in t then map[key := EntryOf(t[h])] else map[]
  }

  /** From `before` to `after`, one statement did what the contract asks of `op` at clock reading `now`, and no more. */
  ghost predicate Performs<P>(before: Table<P>, after: Table<P>, h: string, op: Op<P>, now: int, reply: Reply<P>) {
    && TableOk(before) && TableOk(after)
    && (forall k :: k != h ==> (k in after <==> k in before))
    && (forall k :: k != h && k in before ==> after[k] == before[k])
    && var out := Perform(RecordOf(before, h, op.key), op, now, now);
       RecordOf(after, h, op.key) == out.records && reply == out.reply
  }

  /**
   * One round of `acquire()`: its clock reading, the table just before and just
   * after its insert, and, unless the insert took the lock, the table its
   * select read.
   */
  datatype Round<+P> = Round(now: int, atInsert: Table<P>, afterInsert: Table<P>, taken: bool, atSelect: Table<P>)

  /** A round that starts from `start`: only other clients write before and between its statements. */
  ghost predicate Runs<P>(start: Table<P>, r: Round<P>, now: int, before: Interference<P>, between: Interference<P>) {
    && r.now == now
    && r.atInsert == before(start)
    && r.atSelect == if r.taken then r.afterInsert else between(r.afterInsert)
  }

  /** The round answered what the contract's `acquire` gives at one of its two statements, and left the rest alone. */
  ghost predicate Decides<P>(r: Round<P>, h: string, op: Op<P>, reply: Reply<P>) {
    if r.taken then Performs(r.atInsert, r.afterInsert, h, op, r.now, reply)
    else r.afterInsert == r.atInsert && Performs(r.atSelect, r.atSelect, h, op, r.now, reply)
  }

  /**
   * A round that decided nothing wrote nothing, and the live row that blocked
   * its insert was gone or expired by its select: another client changed it.
   */
  ghost predicate Undecided<P>(r: Round<P>, h: string) {
    && !r.taken
    && r.afterInsert == r.atInsert
    && h in r.atInsert && r.now < r.atInsert[h].expiresAt
    && (h in r.atSelect ==> r.atSelect[h].expiresAt <= r.now)
  }

  /** The table when round `i` starts: where the round before it left off. */
  function TableAt<P>(start: Table<P>, rounds: seq<Round<P>>, i: nat): Table<P>
    requires i <= |rounds|
  {
    if i == 0 then start else rounds[i - 1].atSelect
  }

  /** The rounds are one run, with only other clients writing between this client's statements. */
  ghost predicate Run<P>(start: Table<P>, rounds: seq<Round<P>>, clock: seq<int>, others: seq<Interference<P>>) {
    && |rounds| <= |clock| && 2 * |rounds| <= |others|
    && forall i :: 0 <= i < |rounds| ==> RunsAt(start, rounds, clock, others, i)
  }

  ghost predicate RunsAt<P>(start: Table<P>, rounds: seq<Round<P>>, clock: seq<int>, others: seq<Interference<P>>, i: nat)
    requires i < |rounds| <= |clock| && 2 * |rounds| <= |others|
  {
    Runs(TableAt(start, rounds, i), rounds[i], clock[i], others[2 * i], others[2 * i + 1])
  }

  ghost predicate AllUndecided<P>(rounds: seq<Round<P>>, h: string) {
    forall i :: 0 <= i < |rounds| ==> Undecided(rounds[i], h)
  }

  lemma OneMoreRound<P>(start: Table<P>, rounds: seq<Round<P>>, r: Round<P>, clock: seq<int>, others: seq<Interference<P>>)
    requires Run(start, rounds, clock, others)
    requires |rounds| < |clock| && 2 * |rounds| + 1 < |others|
    requires Runs(TableAt(start, rounds, |rounds|), r, clock[|rounds|], others[2 * |rounds|], others[2 * |rounds| + 1])
    ensures Run(start, rounds + [r], clock, others)
  {
    var more := rounds + [r];
    forall i | 0 <= i < |more|
      ensures RunsAt(start, more, clock, others, i)
    {
      assert TableAt(start, more, i) == TableAt(start, rounds, i);
      if i < |rounds| {
        assert RunsAt(start, rounds, clock, others, i);
      }
    }
  }

  lemma RoundAdded<P>(start: Table<P>, rounds: seq<Round<P>>, r: Round<P>, h: string)
    requires AllUndecided(rounds, h)
    ensures TableAt(start, rounds + [r], |rounds| + 1) == r.atSelect
    ensures forall i :: 0 <= i < |rounds| ==> Undecided((rounds + [r])[i], h)
    ensures Undecided(r, h) ==> AllUndecided(rounds + [r], h)
  {
  }

  /** A statement that writes or deletes one row performs `op` if it does so to the key's own record. */
  lemma OneRowPerforms<P>(before: Table<P>, after: Table<P>, h: string, op: Op<P>, now: int, reply: Reply<P>)
    requires TableOk(before) && (h in after ==> RowOk(after[h]))
    requires after == if h in after then before[h := after[h]] else before - {h}
    requires var out := Perform(RecordOf(before, h, op.key), op, now, now);
      && reply == out.reply
      && out.records == if h in after then map[op.key := EntryOf(after[h])] else map[]
    ensures Performs(before, after, h, op, now, reply)
  {
  }

  const ROUNDS := 5

  class Database<P> {
    var rows: Table<P>

    constructor ()
      ensures rows == map[]
    {
      rows := map[];
    }

    /** `INSERT ... ON CONFLICT (key_hash) DO UPDATE SET ... WHERE expires_at <= now RETURNING key_hash`. */
    method Upsert(h: string, row: Row<P>, now: int) returns (taken: bool)
      modifies this
      ensures taken <==> !(h in old(rows) && now < old(rows)[h].expiresAt)
      ensures rows == if !taken then old(rows)
                      else old(rows)[h := if h in old(rows) then row.(key := old(rows)[h].key) else row]
    {
      if h !in rows {
        rows := rows[h := row];
        return true;
      }
      if rows[h].expiresAt <= now {
        rows := rows[h := row.(key := rows[h].key)];
        return true;
      }
      return false;
    }

    method Select(h: string) returns (row: Option<Row<P>>)
      ensures row == if h in rows then Some(rows[h]) else None
    {
      row := if h in rows then Some(rows[h]) else None;
    }

    /** Other clients' statements run. */
    method Interfere(others: Interference<P>)
      modifies this
      ensures rows == others(old(rows))
    {
      rows := others(rows);
    }
  }

  class DrizzleIdempotencyStore<P(!new)> {
    const db: Database<P>
    /** SHA-256 of a store key. */
    const hashOf: string -> string

    constructor (db: Database<P>, hashOf: string -> string)
      ensures this.db == db && this.hashOf == hashOf
    {
      this.db := db;
      this.hashOf := hashOf;
    }

    method Acquire(key: string, owner: string, fingerprint: string, lockTtl: int,
                   clock: seq<int>, others: seq<Interference<P>>)
      returns (result: Result<Reply<P>, string>, ghost rounds: seq<Round<P>>)
      requires |clock| == 5 && |others| == 10 && (forall i :: 0 <= i < |others| ==> Keeps(others[i])) && TableOk(db.rows)
      modifies db
      ensures TableOk(db.rows)
      ensures 0 < |rounds| <= 5 && Run(old(db.rows), rounds, clock, others)
      ensures db.rows == TableAt(old(db.rows), rounds, |rounds|)
      ensures forall i :: 0 <= i < |rounds| - 1 ==> Undecided(rounds[i], hashOf(key))
      ensures match result
              case Ok(reply) =>
                Decides(rounds[|rounds| - 1], hashOf(key), Op.Acquire(key, owner, fingerprint, lockTtl), reply)
              case Err(_) =>
                |rounds| == 5 && AllUndecided(rounds, hashOf(key))
    {
      rounds := [];
      for attempt := 0 to ROUNDS
        invariant |rounds| == attempt && TableOk(db.rows)
        invariant db.rows == TableAt(old(db.rows), rounds, attempt)
        invariant Run(old(db.rows), rounds, clock, others)
        invariant AllUndecided(rounds, hashOf(key))
      {
        var reply, round := AcquireRound(key, owner, fingerprint, lockTtl, clock[attempt], others[2 * attempt], others[2 * attempt + 1]);
        OneMoreRound(old(db.rows), rounds, round, clock, others);
        RoundAdded(old(db.rows), rounds, round, hashOf(key));
        rounds := rounds + [round];
        if reply.Some? {
          return Ok(reply.value), rounds;
        }
      }
      return Err("The idempotency record for \"" + key + "\" kept changing; try again"), rounds;
    }

    /** The body of the loop: insert the lock or take over an expired row, else report the row that is in the way. */
    method AcquireRound(key: string, owner: string, fingerprint: string, lockTtl: int,
                        now: int, before: Interference<P>, between: Interference<P>)
      returns (reply: Option<Reply<P>>, ghost round: Round<P>)
      requires TableOk(db.rows) && Keeps(before) && Keeps(between)
      modifies db
      ensures TableOk(db.rows) && db.rows == round.atSelect
      ensures Runs(old(db.rows), round, now, before, between)
      ensures match reply
              case Some(reply) => Decides(round, hashOf(key), Op.Acquire(key, owner, fingerprint, lockTtl), reply)
              case None => Undecided(round, hashOf(key))
    {
      var h := hashOf(key);
      db.Interfere(before);
      ghost var atInsert := db.rows;
      var taken := db.Upsert(h, Row(key, fingerprint, Some(owner), None, now + lockTtl), now);
      if taken {
        return Some(Acquired), Round(now, atInsert, db.rows, true, db.rows);
      }

      db.Interfere(between);
      round := Round(now, atInsert, atInsert, false, db.rows);
      var row := db.Select(h);
      if row.Some? && now < row.value.expiresAt {
        assert RowOk(row.value);
        return Some(if row.value.response.None? then FoundInFlight(row.value.fingerprint)
                    else FoundCompleted(row.value.fingerprint, row.value.response.value)), round;
      }
      return None, round;
    }

    /** `owner = ? AND expires_at > ?` on the key's row; a NULL owner matches nobody. */
    predicate OwnedBy(key: string, owner: string, now: int)
      reads db
    {
      var h := hashOf(key);
      h in db.rows && db.rows[h].owner == Some(owner) && now < db.rows[h].expiresAt
    }

    method Complete(key: string, owner: string, response: P, ttl: int, now: int, others: Interference<P>) returns (done: bool)
      requires Keeps(others) && TableOk(db.rows)
      modifies db
      ensures Performs(others(old(db.rows)), db.rows, hashOf(key), Op.Complete(key, owner, response, ttl), now, Done(done))
    {
      db.Interfere(others);
      done := OwnedBy(key, owner, now);
      if done {
        var h := hashOf(key);
        ghost var before := db.rows;
        db.rows := db.rows[h := db.rows[h].(owner := None, response := Some(response), expiresAt := now + ttl)];
        OneRowPerforms(before, db.rows, h, Op.Complete(key, owner, response, ttl), now, Done(true));
      }
    }

    method Release(key: string, owner: string, now: int, others: Interference<P>) returns (done: bool)
      requires Keeps(others) && TableOk(db.rows)
      modifies db
      ensures Performs(others(old(db.rows)), db.rows, hashOf(key), Op.Release(key, owner), now, Done(done))
    {
      db.Interfere(others);
      done := OwnedBy(key, owner, now);
      if done {
        db.rows := db.rows - {hashOf(key)};
      }
    }

    method Extend(key: string, owner: string, lockTtl: int, now: int, others: Interference<P>) returns (done: bool)
      requires Keeps(others) && TableOk(db.rows)
      modifies db
      ensures Performs(others(old(db.rows)), db.rows, hashOf(key), Op.Extend(key, owner, lockTtl), now, Done(done))
    {
      db.Interfere(others);
      done := OwnedBy(key, owner, now);
      if done {
        var h := hashOf(key);
        ghost var before := db.rows;
        db.rows := db.rows[h := db.rows[h].(expiresAt := now + lockTtl)];
        OneRowPerforms(before, db.rows, h, Op.Extend(key, owner, lockTtl), now, Done(true));
      }
    }

    /** Picks up to `limit` expired rows in a subquery, then deletes those still expired when the delete reaches them. */
    method Prune(limit: nat, now: int, others: Interference<P>) returns (deleted: nat)
      requires Keeps(others) && TableOk(db.rows)
      modifies db
      ensures deleted <= limit
      ensures |db.rows| + deleted == |others(old(db.rows))|
      ensures OnlyExpiredDeleted(others(old(db.rows)), db.rows, now)
      ensures |ExpiredIn(old(db.rows), now)| < limit ==>
        forall h :: h in ExpiredIn(old(db.rows), now) && h in db.rows ==> now < db.rows[h].expiresAt
      ensures others(old(db.rows)) == old(db.rows) ==>
        deleted == if |ExpiredIn(old(db.rows), now)| < limit then |ExpiredIn(old(db.rows), now)| else limit
    {
      ghost var before := db.rows;
      var expired := ExpiredRows(limit, now);
      db.Interfere(others);
      ghost var reached := db.rows;
      var doomed := set h | h in expired && h in db.rows && db.rows[h].expiresAt <= now;
      db.rows := db.rows - doomed;
      PrunedRows(before, reached, db.rows, expired, doomed, limit, now);
      deleted := |doomed|;
    }

    method ExpiredRows(limit: nat, now: int) returns (expired: set<string>)
      ensures |expired| <= limit && expired <= ExpiredIn(db.rows, now)
      ensures |expired| < limit ==> expired == ExpiredIn(db.rows, now)
    {
      expired := {};
      var pending := db.rows.Keys;
      while pending != {} && |expired| < limit
        invariant |expired| <= limit && pending <= db.rows.Keys
        invariant expired <= ExpiredIn(db.rows, now)
        invariant forall h :: h in ExpiredIn(db.rows, now) ==> h in expired || h in pending
        decreases |pending|
      {
        var h :| h in pending;
        pending := pending - {h};
        if db.rows[h].expiresAt <= now {
          expired := expired + {h};
        }
      }
    }
  }

  ghost predicate Picked<P>(before: Table<P>, expired: set<string>, limit: nat, now: int) {
    && |expired| <= limit && expired <= ExpiredIn(before, now)
    && (|expired| < limit ==> expired == ExpiredIn(before, now))
  }

  lemma PickedCount<P>(before: Table<P>, expired: set<string>, limit: nat, now: int)
    requires Picked(before, expired, limit, now)
    ensures |expired| == if |ExpiredIn(before, now)| < limit then |ExpiredIn(before, now)| else limit
    ensures |ExpiredIn(before, now)| < limit ==> expired == ExpiredIn(before, now)
  {
    SubsetSize(expired, ExpiredIn(before, now));
  }

  lemma DoomedCount<P>(reached: Table<P>, after: Table<P>, doomed: set<string>)
    requires after == reached - doomed && doomed <= reached.Keys
    ensures |after| + |doomed| == |reached|
  {
    assert reached.Keys == after.Keys + doomed;
    assert |reached.Keys| == |after.Keys| + |doomed|;
  }

  lemma PrunedRows<P>(before: Table<P>, reached: Table<P>, after: Table<P>, expired: set<string>, doomed: set<string>,
      limit: nat, now: int)
    requires Picked(before, expired, limit, now)
    requires doomed == set h | h in expired && h in reached && reached[h].expiresAt <= now
    requires after == reached - doomed
    ensures |doomed| <= limit && |after| + |doomed| == |reached| && OnlyExpiredDeleted(reached, after, now)
    ensures |ExpiredIn(before, now)| < limit ==>
      forall h :: h in ExpiredIn(before, now) && h in after ==> now < after[h].expiresAt
    ensures reached == before ==>
      |doomed| == if |ExpiredIn(before, now)| < limit then |ExpiredIn(before, now)| else limit
  {
    PickedCount(before, expired, limit, now);
    DoomedCount(reached, after, doomed);
    SubsetSize(doomed, expired);
    AllPickedDoomed(before, reached, expired, doomed, now);
  }

  lemma AllPickedDoomed<P>(before: Table<P>, reached: Table<P>, expired: set<string>, doomed: set<string>, now: int)
    requires expired <= ExpiredIn(before, now)
    requires doomed == set h | h in expired && h in reached && reached[h].expiresAt <= now
    ensures reached == before ==> doomed == expired
  {
  }

  function ExpiredIn<P>(t: Table<P>, now: int): set<string> {
    set h | h in t && t[h].expiresAt <= now
  }

  ghost predicate OnlyExpiredDeleted<P>(t: Table<P>, t': Table<P>, now: int) {
    && (forall h :: h in t' ==> h in t && t'[h] == t[h])
    && (forall h :: h in t && h !in t' ==> t[h].expiresAt <= now)
  }

  /** Pruning is invisible: no key's record changes for anyone, from that clock reading on. */
  lemma PruningIsInvisible<P>(t: Table<P>, t': Table<P>, now: int, h: string, key: string, later: int)
    requires TableOk(t) && OnlyExpiredDeleted(t, t', now) && now <= later
    ensures TableOk(t')
    ensures View(RecordOf(t', h, key), later) == View(RecordOf(t, h, key), later)
  {
  }

  lemma SubsetSize<T>(s: set<T>, t: set<T>)
    requires s <= t
    ensures |s| <= |t|
  {
    assert t == s + (t - s);
  }

  /** With a collision-free hash, no statement for one key touches what the table says about another. */
  lemma KeysAreKeptApart<P>(before: Table<P>, after: Table<P>, hashOf: string -> string, op: Op<P>, now: int, reply: Reply<P>, key: string)
    requires Performs(before, after, hashOf(op.key), op, now, reply)
    requires hashOf(key) == hashOf(op.key) ==> key == op.key
    requires key != op.key
    ensures RecordOf(after, hashOf(key), key) == RecordOf(before, hashOf(key), key)
  {
  }
}
