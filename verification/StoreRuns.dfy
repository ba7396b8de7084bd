/**
 * What a whole run of store calls proves about any two of them: which call an
 * entry comes from, when a key can change hands, and why a stale owner stays
 * harmless. A run is the list of calls in the order they reached the store.
 */
module StoreRuns {
  import opened StoreContract

  /**
   * A call that reached the store, and what the store answered: when the store
   * began on it, and the clock readings it was decided and stamped with. A
   * store that reads the clock itself reads no earlier than it began; a client
   * that reads it before it sends a statement may have read long before.
   */
  datatype Landing<+P> = Landing(call: nat, op: Op<P>, began: int, check: int, stamp: int, reply: Reply<P>) {
    /** When the store was done with it. */
    function Ended(): int { if began < stamp then stamp else began }
  }

  function Answer<P>(r: Records<P>, l: Landing<P>): Outcome<P> {
    Perform(r, l.op, l.check, l.stamp)
  }

  /** A landing that changed the key: it took the lock, or wrote as its live holder. */
  predicate Wins<P>(l: Landing<P>) {
    l.reply == Acquired || l.reply == Done(true)
  }

  predicate WinsOn<P>(l: Landing<P>, key: string) {
    Wins(l) && l.op.key == key
  }

  /** The store's records after a run that started empty. */
  function After<P>(log: seq<Landing<P>>): Records<P> {
    if log == [] then map[]
    else
      Answer(After(log[..|log| - 1]), log[|log| - 1]).records
  }

  /** Every reply is the contract's, and the clock never goes back. */
  ghost predicate IsRun<P>(log: seq<Landing<P>>) {
    log != [] ==>
      var n := |log| - 1;
      && IsRun(log[..n])
      && log[n].check <= log[n].stamp
      && log[n].reply == Answer(After(log[..n]), log[n]).reply
      && (0 < n ==> log[n - 1].Ended() <= log[n].began)
  }

  /** The last landing that changed `key`, or -1. */
  function LastWin<P>(log: seq<Landing<P>>, key: string): (w: int)
    ensures -1 <= w < |log|
    ensures 0 <= w ==> WinsOn(log[w], key)
    ensures forall i :: w < i < |log| ==> !WinsOn(log[i], key)
  {
    if log == [] then -1
    else if WinsOn(log[|log| - 1], key) then |log| - 1
    else LastWin(log[..|log| - 1], key)
  }

  /** The last landing that took the lock on `key`, or -1. */
  function LastTake<P>(log: seq<Landing<P>>, key: string): (q: int)
    ensures -1 <= q < |log|
    ensures 0 <= q ==> log[q].reply == Acquired && log[q].op.key == key
    ensures forall i :: q < i < |log| ==> !(log[i].reply == Acquired && log[i].op.key == key)
  {
    if log == [] then -1
    else if log[|log| - 1].reply == Acquired && log[|log| - 1].op.key == key then |log| - 1
    else LastTake(log[..|log| - 1], key)
  }

  /** When the entry a winning landing left behind stops existing. */
  function ExpiryOf<P>(l: Landing<P>): int {
    match l.op
    case Acquire(_, _, _, lockTtl) => l.stamp + lockTtl
    case Extend(_, _, lockTtl) => l.stamp + lockTtl
    case Complete(_, _, _, ttl) => l.stamp + ttl
    case Release(_, _) => l.stamp
  }

  lemma {:induction false} PrefixIsRun<P>(log: seq<Landing<P>>, n: nat)
    requires IsRun(log) && n <= |log|
    ensures IsRun(log[..n])
    decreases |log|
  {
    if n == |log| {
      assert log[..n] == log;
    } else {
      assert log[..|log| - 1][..n] == log[..n];
      PrefixIsRun(log[..|log| - 1], n);
    }
  }

  lemma {:induction false} TimeGoesOn<P>(log: seq<Landing<P>>, i: nat, j: nat)
    requires IsRun(log) && i <= j < |log|
    ensures log[i].began <= log[i].Ended() <= log[j].Ended() && log[j].check <= log[j].stamp <= log[j].Ended()
    ensures i < j ==> log[i].Ended() <= log[j].began
    decreases j - i
  {
    PrefixIsRun(log, j + 1);
    assert log[..j + 1][j] == log[j];
    if i < j {
      TimeGoesOn(log, i, j - 1);
      assert log[..j + 1][j - 1] == log[j - 1];
    }
  }

  /** What the contract answered at one landing, given everything before it. */
  lemma ReplyAt<P>(log: seq<Landing<P>>, j: nat)
    requires IsRun(log) && j < |log|
    ensures IsRun(log[..j])
    ensures log[j].check <= log[j].stamp && log[j].reply == Answer(After(log[..j]), log[j]).reply
  {
    PrefixIsRun(log, j + 1);
    assert log[..j + 1][..j] == log[..j] && log[..j + 1][j] == log[j];
  }

  /** A call that lands now extends the run. */
  lemma OneMoreLanding<P>(log: seq<Landing<P>>, l: Landing<P>)
    requires IsRun(log) && (log != [] ==> log[|log| - 1].Ended() <= l.began)
    requires l.check <= l.stamp && l.reply == Answer(After(log), l).reply
    ensures IsRun(log + [l]) && After(log + [l]) == Answer(After(log), l).records
  {
    assert (log + [l])[..|log|] == log;
  }

  /** The entry of a key is exactly what its last winning landing wrote, under the fingerprint its lock was taken with. */
  ghost predicate EntryFrom<P>(log: seq<Landing<P>>, key: string, r: Records<P>) {
    var w, q := LastWin(log, key), LastTake(log, key);
    if w < 0 then
      key !in r
    else
      && 0 <= q <= w
      && log[q].op.Acquire?
      && log[w].op.owner == log[q].op.owner
      && (log[w].op.Acquire? ==> w == q)
      && match log[w].op
         case Release(_, _) => key !in r
         case Complete(_, _, response, _) =>
           key in r && r[key] == Completed(log[q].op.fingerprint, response, ExpiryOf(log[w]))
         case _ =>
           key in r && r[key] == InFlight(log[q].op.fingerprint, log[w].op.owner, ExpiryOf(log[w]))
  }

  lemma {:induction false} EntryOrigin<P>(log: seq<Landing<P>>, key: string)
    requires IsRun(log)
    ensures EntryFrom(log, key, After(log))
    decreases |log|
  {
    if log != [] {
      var n := |log| - 1;
      EntryOrigin(log[..n], key);
      Fencing(After(log[..n]), log[n].op, log[n].check, log[n].stamp);
      if WinsOn(log[n], key) {
        WinnerWrites(log, key);
      } else {
        LoserLeaves(log, key);
      }
    }
  }

  lemma WinnerWrites<P>(log: seq<Landing<P>>, key: string)
    requires log != [] && WinsOn(log[|log| - 1], key)
    requires var n := |log| - 1;
      EntryFrom(log[..n], key, After(log[..n])) && log[n].reply == Answer(After(log[..n]), log[n]).reply
    ensures EntryFrom(log, key, After(log))
  {
  }

  lemma LoserLeaves<P>(log: seq<Landing<P>>, key: string)
    requires log != [] && !WinsOn(log[|log| - 1], key)
    requires var n := |log| - 1;
      EntryFrom(log[..n], key, After(log[..n])) && log[n].reply == Answer(After(log[..n]), log[n]).reply
    ensures EntryFrom(log, key, After(log))
  {
    var n := |log| - 1;
    var before := log[..n];
    Fencing(After(before), log[n].op, log[n].check, log[n].stamp);
    assert key in After(log) <==> key in After(before);
    assert key in After(before) ==> After(log)[key] == After(before)[key];
    var w, q := LastWin(before, key), LastTake(before, key);
    assert LastWin(log, key) == w && LastTake(log, key) == q;
    if w >= 0 {
      assert before[w] == log[w] && before[q] == log[q];
    }
  }

  /** The winning landing of `owner` in `log[from..till]` that no later landing of `owner` there follows. */
  function LastWinOf<P>(log: seq<Landing<P>>, key: string, owner: string, from: nat, till: nat): (e: nat)
    requires from < till <= |log| && WinsOn(log[from], key) && log[from].op.owner == owner
    ensures from <= e < till && WinsOn(log[e], key) && log[e].op.owner == owner
    ensures forall m :: e < m < till ==> !(WinsOn(log[m], key) && log[m].op.owner == owner)
    decreases till - from
  {
    if WinsOn(log[till - 1], key) && log[till - 1].op.owner == owner then till - 1
    else LastWinOf(log, key, owner, from, till - 1)
  }

  /** The first landing from `from` on that changes `key`. */
  function FirstWin<P>(log: seq<Landing<P>>, key: string, from: nat, till: nat): (m: nat)
    requires from <= till < |log| && WinsOn(log[till], key)
    ensures from <= m <= till && WinsOn(log[m], key)
    ensures forall n :: from <= n < m ==> !WinsOn(log[n], key)
    decreases till - from
  {
    if WinsOn(log[from], key) then from else FirstWin(log, key, from + 1, till)
  }

  /** Cutting the run off after `e` leaves `e` the last winning landing, if nobody wins between `e` and the cut. */
  lemma LastWinOfPrefix<P>(log: seq<Landing<P>>, key: string, e: nat, m: nat)
    requires e < m <= |log| && WinsOn(log[e], key)
    requires forall n :: e < n < m ==> !WinsOn(log[n], key)
    ensures LastWin(log[..m], key) == e
  {
    var w := LastWin(log[..m], key);
    assert log[..m][e] == log[e];
    assert w >= 0 ==> log[..m][w] == log[w];
  }

  /**
   * A key changes hands only when the entry of its previous holder is gone:
   * released, or expired by its own clock arithmetic with nothing written
   * since. The holder of `e` is not the one that wins at `m`, and nobody wins
   * in between.
   */
  lemma HandOver<P>(log: seq<Landing<P>>, key: string, e: nat, m: nat)
    requires IsRun(log) && e < m < |log|
    requires WinsOn(log[e], key) && WinsOn(log[m], key) && log[m].op.owner != log[e].op.owner
    requires forall n :: e < n < m ==> !WinsOn(log[n], key)
    ensures log[m].reply == Acquired
    ensures log[e].op.Release? || ExpiryOf(log[e]) <= log[m].check
  {
    ReplyAt(log, m);
    EntryOrigin(log[..m], key);
    LastWinOfPrefix(log, key, e, m);
    Fencing(After(log[..m]), log[m].op, log[m].check, log[m].stamp);
  }

  /**
   * One execution per epoch: when a second owner takes a key, the first
   * owner's last word on it, `e`, was a release, or had expired, unrenewed (a
   * lock) or past its ttl (a completed record), for the clock reading of `m`,
   * the first to take the key after it.
   */
  lemma OneEpochAtATime<P>(log: seq<Landing<P>>, i: nat, j: nat) returns (e: nat, m: nat)
    requires IsRun(log) && i < j < |log|
    requires log[i].reply == Acquired && log[j].reply == Acquired
    requires log[i].op.key == log[j].op.key && log[i].op.owner != log[j].op.owner
    ensures i <= e < m <= j && WinsOn(log[e], log[i].op.key) && log[e].op.owner == log[i].op.owner
    ensures forall n :: e < n < j ==> !(WinsOn(log[n], log[i].op.key) && log[n].op.owner == log[i].op.owner)
    ensures log[m].reply == Acquired && log[m].op.key == log[i].op.key
    ensures log[e].op.Release? || (ExpiryOf(log[e]) <= log[m].check && log[m].check <= log[j].Ended())
  {
    var key := log[i].op.key;
    e := LastWinOf(log, key, log[i].op.owner, i, j);
    m := FirstWin(log, key, e + 1, j);
    HandOver(log, key, e, m);
    TimeGoesOn(log, m, m);
    TimeGoesOn(log, m, j);
  }

  /** The key's entry is the owner's lock, expired or not. */
  predicate Mine<P>(r: Records<P>, key: string, owner: string) {
    key in r && r[key].InFlight? && r[key].owner == owner
  }

  /** Its owner's call is refused exactly if it reads past the expiry; anyone else's takes the lock over or leaves it. */
  lemma LandingOnLock<P>(r: Records<P>, op: Op<P>, key: string, owner: string, check: int, stamp: int)
    requires Mine(r, key, owner) && (op.owner == owner ==> op.key == key && !op.Acquire?)
    ensures var out := Perform(r, op, check, stamp);
      && (op.owner == owner ==> (out == Outcome(r, Done(false)) <==> r[key].expiresAt <= check))
      && (op.owner != owner ==> !Mine(out.records, key, owner) || out.records[key] == r[key])
  {
  }

  lemma GoneAcrossOneCall<P>(r: Records<P>, op: Op<P>, key: string, owner: string, check: int, stamp: int)
    requires !Mine(r, key, owner) && !(op.Acquire? && op.owner == owner)
    ensures var out := Perform(r, op, check, stamp);
            && !Mine(out.records, key, owner)
            && (op.key == key && op.owner == owner ==> out.reply == Done(false) && out.records == r)
  {
  }

  /**
   * A lock that was taken over, completed or released stays gone, whatever
   * clock readings calls come with: unless it acquires again, its owner never
   * has it back, and each of its calls is answered false.
   */
  lemma {:induction false} GoneStaysGone<P>(log: seq<Landing<P>>, n: nat, key: string, owner: string)
    requires IsRun(log) && n <= |log| && !Mine(After(log[..n]), key, owner)
    requires forall i :: n <= i < |log| ==> !(log[i].op.Acquire? && log[i].op.owner == owner)
    ensures !Mine(After(log), key, owner)
    ensures forall i :: n <= i < |log| && log[i].op.key == key && log[i].op.owner == owner ==> log[i].reply == Done(false)
    decreases |log|
  {
    if |log| == n {
      assert log[..n] == log;
    } else {
      var m := |log| - 1;
      var before, l := log[..m], log[m];
      assert before[..n] == log[..n];
      GoneStaysGone(before, n, key, owner);
      GoneAcrossOneCall(After(before), l.op, key, owner, l.check, l.stamp);
      forall i | n <= i < m && log[i].op.key == key && log[i].op.owner == owner
        ensures log[i].reply == Done(false)
      {
        assert before[i] == log[i];
      }
    }
  }

  /** An owner that does not hold the live lock at `now` does not get it by a call that reads the clock then or later. */
  lemma LostAcrossOneCall<P>(r: Records<P>, op: Op<P>, key: string, owner: string, check: int, stamp: int, now: int, later: int)
    requires !Holds(r, key, owner, now) && now <= later && !(op.Acquire? && op.owner == owner)
    requires op.owner == owner ==> now <= check
    ensures var out := Perform(r, op, check, stamp);
            && !Holds(out.records, key, owner, later)
            && (op.key == key && op.owner == owner ==> out.reply == Done(false) && out.records == r)
  {
  }

  /**
   * A lock that expired stays lost as long as its owner's calls read the clock
   * no earlier: an owner that does not hold a live lock at `now` never holds
   * one again, however many of those calls land, unless it acquires again;
   * and each of them changes nothing.
   */
  lemma {:induction false} LostStaysLost<P>(log: seq<Landing<P>>, n: nat, key: string, owner: string, now: int, later: int)
    requires IsRun(log) && n <= |log| && now <= later
    requires !Holds(After(log[..n]), key, owner, now)
    requires forall i :: n <= i < |log| && log[i].op.owner == owner ==> !log[i].op.Acquire? && now <= log[i].check
    ensures !Holds(After(log), key, owner, later)
    ensures forall i :: n <= i < |log| && log[i].op.key == key && log[i].op.owner == owner ==> log[i].reply == Done(false)
    decreases |log|
  {
    if |log| == n {
      assert log[..n] == log;
    } else {
      var m := |log| - 1;
      var before, l := log[..m], log[m];
      assert before[..n] == log[..n];
      LostStaysLost(before, n, key, owner, now, now);
      LostAcrossOneCall(After(before), l.op, key, owner, l.check, l.stamp, now, later);
      forall i | n <= i < m && log[i].op.key == key && log[i].op.owner == owner
        ensures log[i].reply == Done(false)
      {
        assert before[i] == log[i];
      }
    }
  }

  /** The owner's calls land in the order of their clock readings: none overtakes another. */
  ghost predicate InOrder<P>(log: seq<Landing<P>>, owner: string) {
    forall i, j :: 0 <= i < j < |log| && log[i].op.owner == owner && log[j].op.owner == owner ==>
      log[i].check <= log[j].check && log[i].stamp <= log[j].stamp
  }

  /** The store itself reads the clock for the owner's calls, inside the step that decides them. */
  ghost predicate ReadInside<P>(log: seq<Landing<P>>, owner: string) {
    forall i :: 0 <= i < |log| && log[i].op.owner == owner ==> log[i].began <= log[i].check
  }

  lemma ReadInsideIsInOrder<P>(log: seq<Landing<P>>, owner: string)
    requires IsRun(log) && ReadInside(log, owner)
    ensures InOrder(log, owner)
  {
    forall i, j | 0 <= i < j < |log| && log[i].op.owner == owner && log[j].op.owner == owner
      ensures log[i].check <= log[j].check && log[i].stamp <= log[j].stamp
    {
      TimeGoesOn(log, i, i);
      TimeGoesOn(log, i, j);
    }
  }

  /** One refusal is final: where calls land in order, an owner that was told false once is told false ever after. */
  lemma RefusedIsLost<P>(log: seq<Landing<P>>, m: nat, now: int)
    requires IsRun(log) && m < |log| && log[m].reply == Done(false) && log[m].check <= now
    requires InOrder(log, log[m].op.owner)
    requires forall i :: m < i < |log| && log[i].op.owner == log[m].op.owner ==> !log[i].op.Acquire?
    ensures !Holds(After(log), log[m].op.key, log[m].op.owner, now)
    ensures forall i :: m <= i < |log| && log[i].op.key == log[m].op.key && log[i].op.owner == log[m].op.owner ==>
      log[i].reply == Done(false)
  {
    ReplyAt(log, m);
    Fencing(After(log[..m]), log[m].op, log[m].check, log[m].stamp);
    LostStaysLost(log, m, log[m].op.key, log[m].op.owner, log[m].check, now);
  }

  /**
   * Where a found record comes from: one earlier owner took the lock under
   * that fingerprint and completed it with that very response, while it held
   * the live lock, less than ttl ago, and the key has not changed since.
   */
  lemma RecordProvenance<P>(log: seq<Landing<P>>, j: nat) returns (q: nat, m: nat)
    requires IsRun(log) && j < |log| && log[j].reply.FoundCompleted?
    ensures q < m < j
    ensures log[q].op.Acquire? && log[q].reply == Acquired && log[q].op.key == log[j].op.key
    ensures log[q].op.fingerprint == log[j].reply.fingerprint
    ensures log[m].op.Complete? && log[m].reply == Done(true) && log[m].op.key == log[j].op.key
    ensures log[m].op.owner == log[q].op.owner && log[m].op.response == log[j].reply.response
    ensures Holds(After(log[..m]), log[m].op.key, log[m].op.owner, log[m].check)
    ensures log[m].Ended() <= log[j].began && log[j].check < log[m].stamp + log[m].op.ttl
    ensures forall n :: m < n < j ==> !WinsOn(log[n], log[j].op.key)
  {
    var key := log[j].op.key;
    var before := log[..j];
    ReplyAt(log, j);
    EntryOrigin(before, key);
    m, q := LastWin(before, key), LastTake(before, key);
    assert before[m] == log[m] && before[q] == log[q];
    ReplyAt(log, m);
    Fencing(After(log[..m]), log[m].op, log[m].check, log[m].stamp);
    TimeGoesOn(log, m, j);
    assert forall n :: m < n < j ==> before[n] == log[n];
  }

  /** Who blocks a caller: a live lock, taken under the fingerprint it reports and not expired yet. */
  lemma LockProvenance<P>(log: seq<Landing<P>>, j: nat) returns (q: nat, w: nat)
    requires IsRun(log) && j < |log| && log[j].reply.FoundInFlight?
    ensures q <= w < j
    ensures log[q].op.Acquire? && log[q].reply == Acquired && log[q].op.key == log[j].op.key
    ensures log[q].op.fingerprint == log[j].reply.fingerprint
    ensures WinsOn(log[w], log[j].op.key) && log[w].op.owner == log[q].op.owner
    ensures (log[w].op.Acquire? || log[w].op.Extend?) && log[j].check < ExpiryOf(log[w])
  {
    var key := log[j].op.key;
    var before := log[..j];
    ReplyAt(log, j);
    EntryOrigin(before, key);
    w, q := LastWin(before, key), LastTake(before, key);
    assert before[w] == log[w] && before[q] == log[q];
  }

  /** At `t`, an acquire or extend of the owner of `log[i]` that landed before `t` has not run out yet. */
  ghost predicate CoveredAt<P>(log: seq<Landing<P>>, i: nat, t: int)
    requires i < |log|
  {
    exists m :: i <= m < |log| && log[m].op.owner == log[i].op.owner && log[m].Ended() < t < ExpiryOf(log[m])
  }

  /** Since it took the key at `i`, the owner has done nothing but extend. */
  ghost predicate OnlyExtends<P>(log: seq<Landing<P>>, i: nat)
    requires i < |log|
  {
    && log[i].op.Acquire? && log[i].reply == Acquired && 1 <= log[i].op.lockTtl
    && forall m :: i < m < |log| && log[m].op.owner == log[i].op.owner ==>
         log[m].op == Op<P>.Extend(log[i].op.key, log[i].op.owner, log[i].op.lockTtl)
  }

  /** A live lock can be touched by its holder only, and an extend of the holder succeeds. */
  lemma HeldAcrossOneCall<P>(r: Records<P>, op: Op<P>, key: string, owner: string, check: int, stamp: int, now: int)
    requires Holds(r, key, owner, now) && check <= now
    requires op.owner == owner ==> op.Extend? && op.key == key
    ensures var out := Perform(r, op, check, stamp);
            && Mine(out.records, key, owner)
            && (op.owner == owner ==> out.reply == Done(true))
  {
  }

  ghost predicate AllConfirmed<P>(log: seq<Landing<P>>, i: nat)
    requires i < |log|
  {
    forall m :: i < m < |log| && log[m].op.owner == log[i].op.owner ==> log[m].reply == Done(true)
  }

  /**
   * A lease without a gap is never lost: if the lock was alive when it was
   * taken, at every instant since one of its owner's acquires or extends was
   * still running, and none of them overtook another, the owner holds the live
   * lock now, and every extend of its that landed was confirmed. No call of
   * anyone else can change that.
   */
  lemma {:induction false} UnbrokenLease<P>(log: seq<Landing<P>>, i: nat, now: int)
    requires IsRun(log) && i < |log| && OnlyExtends(log, i) && InOrder(log, log[i].op.owner)
    requires log[i].Ended() < ExpiryOf(log[i]) && log[|log| - 1].Ended() <= now
    requires forall t :: log[i].Ended() < t <= now ==> CoveredAt(log, i, t)
    ensures Holds(After(log), log[i].op.key, log[i].op.owner, now)
    ensures AllConfirmed(log, i)
    decreases |log|
  {
    var n := |log| - 1;
    TimeGoesOn(log, i, n);
    if n > i {
      var before, l := log[..n], log[n];
      var reached := if l.began < l.check then l.check else l.began;
      TimeGoesOn(log, n - 1, n);
      CoveredBefore(log, before, i, reached);
      UnbrokenLease(before, i, reached);
      HeldAcrossOneCall(After(before), l.op, log[i].op.key, log[i].op.owner, l.check, l.stamp, reached);
      ConfirmedSoFar(log, before, i);
    }
    LatestLandingCovers(log, i, now);
  }

  lemma ConfirmedSoFar<P>(log: seq<Landing<P>>, before: seq<Landing<P>>, i: nat)
    requires i < |log| - 1 && before == log[..|log| - 1] && AllConfirmed(before, i)
    requires log[|log| - 1].op.owner == log[i].op.owner ==> log[|log| - 1].reply == Done(true)
    ensures AllConfirmed(log, i)
  {
    forall m | i < m < |log| && log[m].op.owner == log[i].op.owner
      ensures log[m].reply == Done(true)
    {
      if m < |before| {
        assert before[m] == log[m];
      }
    }
  }

  /** The landings before the last one cover every instant the last one has seen. */
  lemma CoveredBefore<P>(log: seq<Landing<P>>, before: seq<Landing<P>>, i: nat, reached: int)
    requires i < |log| - 1 && before == log[..|log| - 1] && OnlyExtends(log, i)
    requires InOrder(log, log[i].op.owner) && reached <= log[|log| - 1].Ended()
    requires forall t :: log[i].Ended() < t <= reached ==> CoveredAt(log, i, t)
    ensures OnlyExtends(before, i) && InOrder(before, log[i].op.owner)
    ensures forall t :: log[i].Ended() < t <= reached ==> CoveredAt(before, i, t)
  {
    forall t | log[i].Ended() < t <= reached
      ensures CoveredAt(before, i, t)
    {
      assert CoveredAt(log, i, t);
      var m :| i <= m < |log| && log[m].op.owner == log[i].op.owner && log[m].Ended() < t < ExpiryOf(log[m]);
      assert before[m] == log[m];
    }
  }

  /** The owner's last landing, all of them having won, decides the expiry. */
  lemma LatestOwnWin<P>(log: seq<Landing<P>>, i: nat) returns (w: nat)
    requires IsRun(log) && i < |log| && OnlyExtends(log, i) && AllConfirmed(log, i)
    requires Mine(After(log), log[i].op.key, log[i].op.owner)
    ensures i <= w < |log| && log[w].op.owner == log[i].op.owner
    ensures forall m :: i <= m < |log| && log[m].op.owner == log[i].op.owner ==> m <= w
    ensures After(log)[log[i].op.key].expiresAt == log[w].stamp + log[i].op.lockTtl
  {
    var key, owner := log[i].op.key, log[i].op.owner;
    EntryOrigin(log, key);
    assert WinsOn(log[i], key);
    w := LastWin(log, key);
    assert log[w].op.owner == owner;
    assert w > i ==> log[w].op == Op<P>.Extend(key, owner, log[i].op.lockTtl);
    forall m | i <= m < |log| && log[m].op.owner == owner
      ensures m <= w
    {
      assert m > i ==> WinsOn(log[m], key);
    }
  }

  lemma CoveringLanding<P>(log: seq<Landing<P>>, i: nat, now: int) returns (m: nat)
    requires i < |log| && OnlyExtends(log, i)
    requires log[i].Ended() <= now < ExpiryOf(log[i]) || CoveredAt(log, i, now)
    ensures i <= m < |log| && log[m].op.owner == log[i].op.owner && now < log[m].stamp + log[i].op.lockTtl
  {
    m := i;
    if !(log[i].Ended() <= now < ExpiryOf(log[i])) {
      m :| i <= m < |log| && log[m].op.owner == log[i].op.owner && log[m].Ended() < now < ExpiryOf(log[m]);
    }
  }

  lemma StampsInOrder<P>(log: seq<Landing<P>>, owner: string, m: nat, w: nat)
    requires InOrder(log, owner) && m <= w < |log| && log[m].op.owner == owner && log[w].op.owner == owner
    ensures log[m].stamp <= log[w].stamp
  {
  }

  /** And it outlasts whichever covers `now`, as they landed in order. */
  lemma LatestLandingCovers<P>(log: seq<Landing<P>>, i: nat, now: int)
    requires IsRun(log) && i < |log| && OnlyExtends(log, i) && AllConfirmed(log, i) && InOrder(log, log[i].op.owner)
    requires log[i].Ended() <= now < ExpiryOf(log[i]) || CoveredAt(log, i, now)
    requires Mine(After(log), log[i].op.key, log[i].op.owner)
    ensures Holds(After(log), log[i].op.key, log[i].op.owner, now)
  {
    var w := LatestOwnWin(log, i);
    var m := CoveringLanding(log, i, now);
    StampsInOrder(log, log[i].op.owner, m, w);
  }
}
