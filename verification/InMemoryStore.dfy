/** The single-process store: a map it mutates in place, expired entries deleted lazily and by a periodic sweep. */
module InMemoryStore {
  import opened StoreContract

  const SWEEP_EVERY := 1_000

  /** The clock readings one call takes, in the order it takes them. */
  datatype Clock = Clock(sweep: int, check: int, stamp: int) {
    predicate Monotone() { sweep <= check <= stamp }
  }

  lemma SmallerDomainSmallerMap<P>(r: Records<P>, s: Records<P>)
    requires r.Keys <= s.Keys
    ensures |r| <= |s|
  {
    assert s.Keys == r.Keys + (s.Keys - r.Keys);
    assert |r| == |r.Keys| && |s| == |s.Keys|;
  }

  /** `s` is `r` with only entries deleted that were dead by `now`. */
  ghost predicate OnlyDeadDeleted<P>(r: Records<P>, s: Records<P>, now: int) {
    && (forall k :: k in s ==> k in r && s[k] == r[k])
    && (forall k :: k in r && k !in s ==> r[k].expiresAt <= now)
  }

  /** Deleting dead entries is invisible: any call answers and leaves behind the same with and without. */
  lemma DeletingTheDeadIsInvisible<P>(r: Records<P>, s: Records<P>, op: Op<P>, check: int, stamp: int)
    requires OnlyDeadDeleted(r, s, check)
    ensures View(s, check) == View(r, check)
    ensures Perform(s, op, check, stamp).reply == Perform(r, op, check, stamp).reply
    ensures View(Perform(s, op, check, stamp).records, check) == View(Perform(r, op, check, stamp).records, check)
  {
    PerformRespectsView(s, r, op, check, stamp);
  }

  /** Sweeping or not, then looking one key up, only ever deletes the dead. */
  lemma SweptAndRead<P>(before: Records<P>, swept: Records<P>, read: Records<P>, key: string, clock: Clock)
    requires clock.Monotone() && (swept == before || swept == View(before, clock.sweep))
    requires read == swept || (read == swept - {key} && !Live(swept, key, clock.check))
    ensures OnlyDeadDeleted(before, read, clock.check)
    ensures Live(read, key, clock.check) <==> Live(swept, key, clock.check)
  {
  }

  class InMemoryIdempotencyStore<P> {
    var entries: Records<P>
    var operations: nat
    /** How many entries the last sweep kept: all of them alive at that moment. */
    ghost var kept: nat

    /** Garbage is bounded: what the last sweep kept, plus one entry per acquire since. */
    ghost predicate Valid()
      reads this
    {
      |entries| <= kept + 1 + operations % SWEEP_EVERY
    }

    constructor ()
      ensures Valid() && entries == map[] && operations == 0
    {
      entries := map[];
      operations := 0;
      kept := 0;
    }

    method Acquire(key: string, owner: string, fingerprint: string, lockTtl: int, clock: Clock) returns (reply: Reply<P>)
      requires Valid() && clock.Monotone()
      modifies this
      ensures Valid()
      ensures var out := Perform(old(entries), Op.Acquire(key, owner, fingerprint, lockTtl), clock.check, clock.stamp);
              reply == out.reply && View(entries, clock.check) == View(out.records, clock.check)
      ensures operations == old(operations) + 1
      ensures kept == if operations % 1_000 == 0 then |View(old(entries), clock.sweep)| else old(kept)
      ensures |entries| <= kept + 1 + operations % 1_000
    {
      ghost var before := entries;
      MaybeSweep(clock.sweep);
      ghost var swept := entries;
      var existing := Read(key, clock.check);
      SweptAndRead(before, swept, entries, key, clock);
      ghost var op := Op.Acquire(key, owner, fingerprint, lockTtl);
      ghost var out := Perform(entries, op, clock.check, clock.stamp);
      DeletingTheDeadIsInvisible(before, entries, op, clock.check, clock.stamp);
      if existing && entries[key].Completed? {
        assert out.records == entries;
        return FoundCompleted(entries[key].fingerprint, entries[key].response);
      }
      if existing && entries[key].InFlight? {
        assert out.records == entries;
        return FoundInFlight(entries[key].fingerprint);
      }

      entries := entries[key := InFlight(fingerprint, owner, clock.stamp + lockTtl)];
      assert out.records == entries;
      return Acquired;
    }

    method Complete(key: string, owner: string, response: P, ttl: int, clock: Clock) returns (done: bool)
      requires Valid() && clock.Monotone()
      modifies this`entries
      ensures Valid()
      ensures var out := Perform(old(entries), Op.Complete(key, owner, response, ttl), clock.check, clock.stamp);
              Done(done) == out.reply && View(entries, clock.check) == View(out.records, clock.check)
    {
      ghost var before := entries;
      var existing := Read(key, clock.check);
      DeletingTheDeadIsInvisible(before, entries, Op.Complete(key, owner, response, ttl), clock.check, clock.stamp);
      if !existing || !entries[key].InFlight? || entries[key].owner != owner {
        return false;
      }

      entries := entries[key := Completed(entries[key].fingerprint, response, clock.stamp + ttl)];
      return true;
    }

    method Release(key: string, owner: string, clock: Clock) returns (done: bool)
      requires Valid() && clock.Monotone()
      modifies this`entries
      ensures Valid()
      ensures var out := Perform(old(entries), Op.Release(key, owner), clock.check, clock.stamp);
              Done(done) == out.reply && View(entries, clock.check) == View(out.records, clock.check)
    {
      ghost var before := entries;
      var existing := Read(key, clock.check);
      DeletingTheDeadIsInvisible(before, entries, Op.Release(key, owner), clock.check, clock.stamp);
      if !existing || !entries[key].InFlight? || entries[key].owner != owner {
        return false;
      }
      SmallerDomainSmallerMap(entries - {key}, entries);
      entries := entries - {key};
      return true;
    }

    method Extend(key: string, owner: string, lockTtl: int, clock: Clock) returns (done: bool)
      requires Valid() && clock.Monotone()
      modifies this`entries
      ensures Valid()
      ensures var out := Perform(old(entries), Op.Extend(key, owner, lockTtl), clock.check, clock.stamp);
              Done(done) == out.reply && View(entries, clock.check) == View(out.records, clock.check)
    {
      ghost var before := entries;
      var existing := Read(key, clock.check);
      DeletingTheDeadIsInvisible(before, entries, Op.Extend(key, owner, lockTtl), clock.check, clock.stamp);
      if !existing || !entries[key].InFlight? || entries[key].owner != owner {
        return false;
      }
      entries := entries[key := InFlight(entries[key].fingerprint, owner, clock.stamp + lockTtl)];
      return true;
    }

    /** The number of live records. */
    method Size(now: int) returns (n: nat)
      requires Valid()
      modifies this`entries, this`kept
      ensures Valid()
      ensures n == |View(old(entries), now)| && SameFrom(entries, old(entries), now)
      ensures kept == n
    {
      ghost var before := entries;
      Sweep(now);
      ViewDecidesTheFuture(entries, before, now);
      n := |entries|;
    }

    /** Looks a live entry up, deleting a dead one it comes across. */
    method Read(key: string, now: int) returns (found: bool)
      modifies this`entries
      ensures found == Live(old(entries), key, now)
      ensures entries == if key in old(entries) && !found then old(entries) - {key} else old(entries)
      ensures |entries| <= |old(entries)|
    {
      if key in entries && entries[key].expiresAt <= now {
        SmallerDomainSmallerMap(entries - {key}, entries);
        entries := entries - {key};
        return false;
      }
      return key in entries;
    }

    method MaybeSweep(now: int)
      requires Valid()
      modifies this
      ensures operations == old(operations) + 1
      ensures entries == if operations % 1_000 == 0 then View(old(entries), now) else old(entries)
      ensures kept == if operations % SWEEP_EVERY == 0 then |entries| else old(kept)
      ensures |entries| <= kept + operations % SWEEP_EVERY
    {
      operations := operations + 1;
      if operations % SWEEP_EVERY == 0 {
        Sweep(now);
      }
    }

    /** Visits every entry once, in any order, and deletes the dead ones: exactly the view is left. */
    method Sweep(now: int)
      modifies this`entries, this`kept
      ensures entries == View(old(entries), now) && kept == |entries|
    {
      var pending := entries.Keys;
      while pending != {}
        invariant pending <= old(entries).Keys
        invariant entries == map k | k in old(entries) && (k in pending || now < old(entries)[k].expiresAt) :: old(entries)[k]
        decreases |pending|
      {
        var key :| key in pending;
        if entries[key].expiresAt <= now {
          entries := entries - {key};
        }
        pending := pending - {key};
      }
      kept := |entries|;
    }
  }
}
