/**
 * The contract every idempotency store keeps: what `acquire`, `complete`,
 * `release` and `extend` do to a set of records, and what they answer.
 *
 * A store method may read the clock twice, once to decide what is still alive
 * (`check`) and once to stamp a new expiry (`stamp`); a store that reads it
 * once passes the same instant for both.
 */
module StoreContract {

  /** A lock (it has an owner) or a completed record (it has a response). */
  datatype Entry<+P> =
    | InFlight(fingerprint: string, owner: string, expiresAt: int)
    | Completed(fingerprint: string, response: P, expiresAt: int)

  type Records<+P> = map<string, Entry<P>>

  datatype Op<+P> =
    | Acquire(key: string, owner: string, fingerprint: string, lockTtl: int)
    | Complete(key: string, owner: string, response: P, ttl: int)
    | Release(key: string, owner: string)
    | Extend(key: string, owner: string, lockTtl: int)

  datatype Reply<+P> =
    | Acquired
    | FoundInFlight(fingerprint: string)
    | FoundCompleted(fingerprint: string, response: P)
    | Done(ok: bool)

  datatype Outcome<+P> = Outcome(records: Records<P>, reply: Reply<P>)

  /** An entry is alive strictly before its expiry; from that millisecond on it does not exist. */
  predicate Live<P>(r: Records<P>, key: string, now: int) {
    key in r && now < r[key].expiresAt
  }

  predicate Holds<P>(r: Records<P>, key: string, owner: string, now: int) {
    Live(r, key, now) && r[key].InFlight? && r[key].owner == owner
  }

  /** What is observable at `now`: expired entries do not exist, deleted or not. */
  function View<P>(r: Records<P>, now: int): Records<P> {
    map k | k in r && now < r[k].expiresAt :: r[k]
  }

  function Perform<P>(r: Records<P>, op: Op<P>, check: int, stamp: int): Outcome<P> {
    match op
    case Acquire(key, owner, fingerprint, lockTtl) =>
      if !Live(r, key, check) then
        Outcome(r[key := InFlight(fingerprint, owner, stamp + lockTtl)], Acquired)
      else if r[key].InFlight? then
        Outcome(r, FoundInFlight(r[key].fingerprint))
      else
        Outcome(r, FoundCompleted(r[key].fingerprint, r[key].response))
    case Complete(key, owner, response, ttl) =>
      if Holds(r, key, owner, check) then
        Outcome(r[key := Completed(r[key].fingerprint, response, stamp + ttl)], Done(true))
      else
        Outcome(r, Done(false))
    case Release(key, owner) =>
      if Holds(r, key, owner, check) then Outcome(r - {key}, Done(true)) else Outcome(r, Done(false))
    case Extend(key, owner, lockTtl) =>
      if Holds(r, key, owner, check) then
        Outcome(r[key := InFlight(r[key].fingerprint, owner, stamp + lockTtl)], Done(true))
      else
        Outcome(r, Done(false))
  }

  /** Two record sets that nothing can tell apart from `now` on. */
  ghost predicate SameFrom<P>(r: Records<P>, s: Records<P>, now: int) {
    forall t :: now <= t ==> View(r, t) == View(s, t)
  }

  /** Agreement on what is alive now is agreement on everything to come. */
  lemma ViewDecidesTheFuture<P>(r: Records<P>, s: Records<P>, now: int)
    requires View(r, now) == View(s, now)
    ensures SameFrom(r, s, now)
  {
    forall t | now <= t
      ensures View(r, t) == View(s, t)
    {
      assert forall k :: k in View(r, t) <==> k in View(r, now) && t < View(r, now)[k].expiresAt;
      assert forall k :: k in View(s, t) <==> k in View(s, now) && t < View(s, now)[k].expiresAt;
      forall k | k in View(r, t) || k in View(s, t)
        ensures k in View(r, t) && k in View(s, t) && View(r, t)[k] == View(s, t)[k]
      {
        assert View(r, now)[k] == View(s, now)[k];
      }
    }
  }

  /** Liveness and ownership of a key are properties of the view. */
  lemma ViewDecides<P>(r: Records<P>, s: Records<P>, key: string, now: int)
    requires View(r, now) == View(s, now)
    ensures Live(r, key, now) == Live(s, key, now)
    ensures Live(r, key, now) ==> r[key] == s[key]
  {
    assert Live(r, key, now) <==> key in View(r, now);
    assert Live(s, key, now) <==> key in View(s, now);
    if Live(r, key, now) {
      assert View(r, now)[key] == View(s, now)[key];
    }
  }

  /** The contract never looks at dead entries: stores with equal views answer alike and stay equal. */
  lemma PerformRespectsView<P>(r: Records<P>, s: Records<P>, op: Op<P>, check: int, stamp: int)
    requires View(r, check) == View(s, check)
    ensures Perform(r, op, check, stamp).reply == Perform(s, op, check, stamp).reply
    ensures SameFrom(Perform(r, op, check, stamp).records, Perform(s, op, check, stamp).records, check)
  {
    ViewDecides(r, s, op.key, check);
    var r', s' := Perform(r, op, check, stamp).records, Perform(s, op, check, stamp).records;
    forall k | k in View(r', check) || k in View(s', check)
      ensures k in View(r', check) && k in View(s', check) && View(r', check)[k] == View(s', check)[k]
    {
      ViewDecides(r, s, k, check);
    }
    assert View(r', check) == View(s', check);
    ViewDecidesTheFuture(r', s', check);
  }

  /**
   * Fencing for one call: a call changes at most its own key, only when that
   * key is dead (`acquire`) or the caller holds its live lock (the other
   * three), and exactly the calls that answer `Acquired` or `true` change it.
   */
  lemma Fencing<P>(r: Records<P>, op: Op<P>, check: int, stamp: int)
    ensures var out := Perform(r, op, check, stamp);
            && (forall k :: k != op.key ==> (k in out.records <==> k in r))
            && (forall k :: k != op.key && k in r ==> out.records[k] == r[k])
            && (out.reply == Acquired <==> op.Acquire? && !Live(r, op.key, check))
            && (out.reply == Done(true) <==> !op.Acquire? && Holds(r, op.key, op.owner, check))
            && (out.reply != Acquired && out.reply != Done(true) ==> out.records == r)
  {
  }

  /** The replies of a list of acquires, each made at its own instant. */
  function AcquireAll<P>(r: Records<P>, calls: seq<(Op<P>, int)>): (replies: seq<Reply<P>>)
    ensures |replies| == |calls|
    decreases |calls|
  {
    if calls == [] then []
    else
      var out := Perform(r, calls[0].0, calls[0].1, calls[0].1);
      [out.reply] + AcquireAll(out.records, calls[1..])
  }

  /**
   * Of any number of callers racing for one key while it has a live entry, none wins: the
   * entry blocks every one of them and each is told its fingerprint.
   */
  lemma {:induction false} LiveEntryBlocksAll<P>(r: Records<P>, key: string, calls: seq<(Op<P>, int)>)
    requires key in r
    requires forall c :: c in calls ==> c.0.Acquire? && c.0.key == key && c.1 < r[key].expiresAt
    ensures forall i :: 0 <= i < |calls| ==>
      AcquireAll(r, calls)[i] ==
        if r[key].InFlight? then FoundInFlight(r[key].fingerprint)
        else FoundCompleted(r[key].fingerprint, r[key].response)
  {
    if calls != [] {
      assert calls[0] in calls;
      assert Perform(r, calls[0].0, calls[0].1, calls[0].1).records == r;
      LiveEntryBlocksAll(r, key, calls[1..]);
    }
  }

  /** Exactly one of any number of callers wins a dead key, for as long as the winner's lock lives. */
  lemma OneWinner<P>(r: Records<P>, key: string, calls: seq<(Op<P>, int)>)
    requires calls != [] && !Live(r, key, calls[0].1)
    requires forall c :: c in calls ==> c.0.Acquire? && c.0.key == key
    requires forall c :: c in calls[1..] ==> c.1 < calls[0].1 + calls[0].0.lockTtl
    ensures AcquireAll(r, calls)[0] == Acquired
    ensures forall i :: 0 < i < |calls| ==> AcquireAll(r, calls)[i] == FoundInFlight(calls[0].0.fingerprint)
  {
    assert calls[0] in calls;
    var out := Perform(r, calls[0].0, calls[0].1, calls[0].1);
    LiveEntryBlocksAll(out.records, key, calls[1..]);
    assert forall i :: 0 < i < |calls| ==> AcquireAll(r, calls)[i] == AcquireAll(out.records, calls[1..])[i - 1];
  }
}
