/** The heartbeat's arithmetic: when renewals every third of `lockTtl` keep a lock alive, and when they cannot. */
module Lease {
  import opened Wrappers
  import opened StoreContract
  import opened StoreRuns
  import opened JsValues
  import opened Protocol
  import opened ProtocolInvariant
  import opened ProtocolTheorems
  import opened LostLocks
  import opened Reports
  import opened Scenarios

  /** The renewal interval: a third of `lockTtl`, at least 1 ms, at most what a timer takes. */
  function Period(lockTtl: nat): (p: nat)
    ensures 1 <= p <= 0x7FFF_FFFF
    ensures p == 1 || 3 * p <= lockTtl
    ensures p == 0x7FFF_FFFF || lockTtl < 3 * (p + 1)
  {
    var third := lockTtl / 3;
    Min(if third < 1 then 1 else third, MAX_TIMEOUT)
  }

  lemma SlackNeedsALock(lockTtl: nat, m: nat, d: nat)
    requires (m + 1) * Period(lockTtl) + 2 * d < lockTtl
    ensures 1 <= lockTtl && d < lockTtl
  {
    assert 1 * Period(lockTtl) <= (m + 1) * Period(lockTtl);
  }

  /** When beat `n` of the attempt is due. */
  function BeatTime(att: Attempt, n: nat): int {
    att.startedAt + n * Period(att.request.settings.lockTtl)
  }

  /** Beat `n` issued a renewal that read the clock after the beat and landed at most `d` after it. */
  ghost predicate BeatLanded(s: State, a: nat, n: nat, d: nat)
    requires a < |s.attempts|
  {
    exists l :: 0 <= l < |s.log| && s.log[l].op == ExtendOp(s.attempts[a])
             && BeatTime(s.attempts[a], n) <= s.log[l].stamp && s.log[l].Ended() <= BeatTime(s.attempts[a], n) + d
  }

  ghost predicate OneOfLanded(s: State, a: nat, n: nat, m: nat, d: nat)
    requires a < |s.attempts|
  {
    exists i: nat :: n <= i <= n + m && BeatLanded(s, a, i, d)
  }

  /** Of any `m + 1` beats in a row that are over by now, at least one landed: at most `m` in a row are skipped or fail. */
  ghost predicate BeatsOnSchedule(s: State, a: nat, m: nat, d: nat)
    requires a < |s.attempts|
  {
    forall n: nat {:trigger OneOfLanded(s, a, n, m, d)} ::
      1 <= n && BeatTime(s.attempts[a], n + m) + d <= s.clock ==> OneOfLanded(s, a, n, m, d)
  }

  /** The beat window that covers an instant past the first lease. */
  lemma WindowOf(elapsed: int, p: nat, m: nat, d: nat) returns (n: nat)
    requires 1 <= p && (m + 1) * p + d <= elapsed
    ensures 1 <= n
    ensures (n + m) * p + d <= elapsed < (n + m + 1) * p + d
  {
    var last := (elapsed - d) / p;
    assert last * p <= elapsed - d < (last + 1) * p;
    assert last < m + 1 ==> (last + 1) * p <= (m + 1) * p;
    n := last - m;
  }

  /** From a landed beat of the window, the instant `t` is less than `lockTtl` away. */
  lemma BeatReaches(t: int, t0: int, p: nat, m: nat, d: nat, lockTtl: nat, n: nat, i: nat, stamp: int, ended: int)
    requires 1 <= p && 1 <= n <= i <= n + m
    requires (n + m) * p + d <= t - 1 - t0 < (n + m + 1) * p + d
    requires t0 + i * p <= stamp && ended <= t0 + i * p + d
    requires (m + 1) * p + 2 * d < lockTtl
    ensures t0 < stamp && ended < t < stamp + lockTtl
  {
    assert 1 * p <= i * p;
    assert i * p <= (n + m) * p;
    assert n * p <= i * p;
    assert (n + m + 1) * p == n * p + (m + 1) * p;
  }

  lemma OwnLandingsExtend(cfg: Config, s: State, a: nat)
    requires Inv(cfg, s) && a < |s.attempts| && Started(s.attempts[a])
    requires s.attempts[a].settleCall.Some? ==> !Landed(s, s.attempts[a].settleCall.value)
    requires 1 <= s.attempts[a].request.settings.lockTtl
    ensures Won(s, s.attempts[a]) && OnlyExtends(s.log, TakenAt(s, s.attempts[a]))
  {
    assert AttemptOk(cfg, s, a);
    AcquireLanding(cfg, s, a);
    var i := TakenAt(s, s.attempts[a]);
    forall m | i < m < |s.log| && s.log[m].op.owner == s.log[i].op.owner
      ensures s.log[m].op == ExtendOp(s.attempts[a])
    {
      var who := WhoseLanding(cfg, s, m);
      SameOwnerSameAttempt(s, who, a);
    }
  }

  lemma LandedInWindow(s: State, a: nat, n: nat, m: nat, d: nat) returns (i: nat, l: nat)
    requires a < |s.attempts| && OneOfLanded(s, a, n, m, d)
    ensures n <= i <= n + m && l < |s.log| && s.log[l].op == ExtendOp(s.attempts[a])
    ensures BeatTime(s.attempts[a], i) <= s.log[l].stamp && s.log[l].Ended() <= BeatTime(s.attempts[a], i) + d
  {
    i :| n <= i <= n + m && BeatLanded(s, a, i, d);
    l :| 0 <= l < |s.log| && s.log[l].op == ExtendOp(s.attempts[a])
         && BeatTime(s.attempts[a], i) <= s.log[l].stamp && s.log[l].Ended() <= BeatTime(s.attempts[a], i) + d;
  }

  /** An instant past the first lease is covered by a renewal that landed before it. */
  lemma SomeBeatReaches(s: State, a: nat, m: nat, d: nat, t: int) returns (l: nat)
    requires a < |s.attempts| && BeatsOnSchedule(s, a, m, d)
    requires var lockTtl := s.attempts[a].request.settings.lockTtl;
             && (m + 1) * Period(lockTtl) + 2 * d < lockTtl
             && s.attempts[a].startedAt - d + lockTtl <= t <= s.clock
    ensures l < |s.log| && s.log[l].op == ExtendOp(s.attempts[a])
    ensures s.attempts[a].startedAt < s.log[l].stamp && s.log[l].Ended() < t < ExpiryOf(s.log[l])
  {
    var att := s.attempts[a];
    var lockTtl, p := att.request.settings.lockTtl, Period(att.request.settings.lockTtl);
    var n := WindowOf(t - 1 - att.startedAt, p, m, d);
    assert OneOfLanded(s, a, n, m, d) by {
      assert BeatTime(att, n + m) + d <= s.clock;
    }
    var i;
    i, l := LandedInWindow(s, a, n, m, d);
    assert att.startedAt + i * p <= s.log[l].stamp && s.log[l].Ended() <= att.startedAt + i * p + d;
    BeatReaches(t, att.startedAt, p, m, d, lockTtl, n, i, s.log[l].stamp, s.log[l].Ended());
  }

  /** The beats on schedule leave no instant uncovered. */
  lemma BeatsCover(s: State, a: nat, m: nat, d: nat, i: nat, t: int)
    requires IsRun(s.log) && a < |s.attempts| && i < |s.log| && s.log[i].op == AcquireOp(s.attempts[a])
    requires s.attempts[a].startedAt - d <= s.log[i].stamp && s.log[i].Ended() <= s.attempts[a].startedAt
    requires (m + 1) * Period(s.attempts[a].request.settings.lockTtl) + 2 * d < s.attempts[a].request.settings.lockTtl
    requires BeatsOnSchedule(s, a, m, d) && s.log[i].Ended() < t <= s.clock
    ensures CoveredAt(s.log, i, t)
  {
    if t < ExpiryOf(s.log[i]) {
      assert s.log[i].Ended() < t < ExpiryOf(s.log[i]);
    } else {
      var l := SomeBeatReaches(s, a, m, d, t);
      if l < i {
        TimeGoesOn(s.log, l, l);
        TimeGoesOn(s.log, l, i);
      }
      assert i <= l;
    }
  }

  /**
   * An attempt whose lock is renewed on schedule, and has not been settled:
   * acquire replies and extend landings are at most `d` late, at most `m`
   * beats in a row are skipped or fail, and no renewal overtakes another.
   */
  ghost predicate Renewed(cfg: Config, s: State, a: nat, m: nat, d: nat) {
    && Reachable(cfg, s) && a < |s.attempts| && Started(s.attempts[a]) && Won(s, s.attempts[a])
    && (s.attempts[a].settleCall.Some? ==> !Landed(s, s.attempts[a].settleCall.value))
    && s.attempts[a].startedAt - d <= s.log[TakenAt(s, s.attempts[a])].stamp
    && BeatsOnSchedule(s, a, m, d) && OwnInOrder(s, a)
  }

  /**
   * Lease arithmetic: a lock that is renewed on schedule never expires, and
   * every renewal is confirmed, whenever (m + 1) * period + 2 * d < lockTtl.
   */
  lemma RenewedLockNeverExpires(cfg: Config, s: State, a: nat, m: nat, d: nat)
    requires Renewed(cfg, s, a, m, d)
    requires (m + 1) * Period(s.attempts[a].request.settings.lockTtl) + 2 * d < s.attempts[a].request.settings.lockTtl
    ensures HoldsLock(s, s.attempts[a])
    ensures AllConfirmed(s.log, TakenAt(s, s.attempts[a]))
    ensures s.attempts[a].lost.None?
  {
    ReachableKeeps(cfg, s);
    assert AttemptOk(cfg, s, a);
    AcquireLanding(cfg, s, a);
    SlackNeedsALock(s.attempts[a].request.settings.lockTtl, m, d);
    OwnLandingsExtend(cfg, s, a);
    var i := TakenAt(s, s.attempts[a]);
    WholeLeaseCovered(cfg, s, a, m, d);
    UnbrokenLease(s.log, i, s.clock);
    ConfirmedNotLost(cfg, s, a);
  }

  lemma WholeLeaseCovered(cfg: Config, s: State, a: nat, m: nat, d: nat)
    requires Inv(cfg, s) && Renewed(cfg, s, a, m, d)
    requires (m + 1) * Period(s.attempts[a].request.settings.lockTtl) + 2 * d < s.attempts[a].request.settings.lockTtl
    ensures var i := TakenAt(s, s.attempts[a]);
      && s.log[i].Ended() < ExpiryOf(s.log[i])
      && forall t :: s.log[i].Ended() < t <= s.clock ==> CoveredAt(s.log, i, t)
  {
    assert AttemptOk(cfg, s, a);
    AcquireLanding(cfg, s, a);
    var i := TakenAt(s, s.attempts[a]);
    SlackNeedsALock(s.attempts[a].request.settings.lockTtl, m, d);
    forall t | s.log[i].Ended() < t <= s.clock
      ensures CoveredAt(s.log, i, t)
    {
      BeatsCover(s, a, m, d, i, t);
    }
  }

  lemma LostLanding(cfg: Config, s: State, a: nat) returns (m: nat)
    requires Inv(cfg, s) && a < |s.attempts| && Won(s, s.attempts[a]) && s.attempts[a].lost.Some?
    ensures TakenAt(s, s.attempts[a]) < m < |s.log|
    ensures s.log[m].op.owner == s.attempts[a].owner && s.log[m].reply != Done(true)
  {
    assert AttemptOk(cfg, s, a);
    var c := s.attempts[a].lost.value;
    assert CallOk(cfg, s, c);
    m := s.calls[c].landing.value;
  }

  lemma ConfirmedNotLost(cfg: Config, s: State, a: nat)
    requires Inv(cfg, s) && a < |s.attempts| && Won(s, s.attempts[a])
    requires AllConfirmed(s.log, TakenAt(s, s.attempts[a]))
    ensures s.attempts[a].lost.None?
  {
    AcquireLanding(cfg, s, a);
    if s.attempts[a].lost.Some? {
      var m := LostLanding(cfg, s, a);
    }
  }

  lemma FewerBeats(n: nat, m: nat, p: nat)
    requires 1 <= p
    ensures 1 <= n ==> (m + 1) * p <= (n + m) * p
    ensures 2 <= n ==> (m + 1) * p < (n + m) * p
    ensures 1 <= n ==> 1 <= (n + m) * p
  {
    if 1 <= n {
      assert (n + m) * p == (m + 1) * p + (n - 1) * p;
      assert 1 * 1 <= (m + 1) * p;
    }
  }

  /** No window of `m + 1` beats is over yet. */
  lemma NoWindowYet(s: State, m: nat, d: nat)
    requires |s.attempts| == 1
    requires s.clock < s.attempts[0].startedAt + (m + 1) * Period(s.attempts[0].request.settings.lockTtl) + d
    ensures BeatsOnSchedule(s, 0, m, d)
  {
    var p := Period(s.attempts[0].request.settings.lockTtl);
    forall n: nat {:trigger OneOfLanded(s, 0, n, m, d)} | 1 <= n
      ensures BeatTime(s.attempts[0], n + m) + d <= s.clock ==> OneOfLanded(s, 0, n, m, d)
    {
      FewerBeats(n, m, p);
    }
  }

  /** Only the first window of `m + 1` beats is over, and its last beat landed. */
  lemma FirstWindowMet(s: State, m: nat, d: nat, l: nat)
    requires |s.attempts| == 1 && l < |s.log| && s.log[l].op == ExtendOp(s.attempts[0])
    requires s.clock == s.attempts[0].startedAt + (m + 1) * Period(s.attempts[0].request.settings.lockTtl) + d
    requires s.clock - d <= s.log[l].stamp && s.log[l].Ended() <= s.clock
    ensures BeatsOnSchedule(s, 0, m, d)
  {
    var p := Period(s.attempts[0].request.settings.lockTtl);
    assert BeatLanded(s, 0, m + 1, d);
    forall n: nat {:trigger OneOfLanded(s, 0, n, m, d)} | 1 <= n && BeatTime(s.attempts[0], n + m) + d <= s.clock
      ensures OneOfLanded(s, 0, n, m, d)
    {
      FewerBeats(n, m, p);
    }
  }

  /** A renewal is issued `ms` after `s`, and lands `d` later, when the lock has expired. */
  lemma LateRenewalRefused(cfg: Config, s: State, ms: nat, d: nat) returns (s': State)
    requires Reachable(cfg, s) && Renewing(s) && |s.calls| == |s.log| == 1
    requires Mine(s.records, s.attempts[0].request.storeKey, s.attempts[0].owner)
    requires s.records[s.attempts[0].request.storeKey].expiresAt <= s.clock + ms + d
    ensures Reachable(cfg, s') && s'.clock == s.clock + ms + d && s'.records == s.records
    ensures s'.attempts == [s.attempts[0].(pending := Some(1))]
    ensures s'.calls == s.calls + [StoreCall(0, ExtendOp(s.attempts[0]), s.clock + ms, Some(1))]
    ensures s'.log == s.log + [Landing(1, ExtendOp(s.attempts[0]), s'.clock, s'.clock, s'.clock, Done(false))]
  {
    OneStepFurther(cfg, s, Tick(ms));
    s' := Apply(cfg, s, Tick(ms));
    OneStepFurther(cfg, s', Beat(0));
    s' := Apply(cfg, s', Beat(0));
    OneStepFurther(cfg, s', Tick(d));
    s' := Apply(cfg, s', Tick(d));
    OneStepFurther(cfg, s', Land(1, s'.clock, s'.clock));
    s' := Apply(cfg, s', Land(1, s'.clock, s'.clock));
  }

  /** The bound is tight: where it fails, a run on schedule loses the lock, on a store that reads the clock itself. */
  lemma LeaseBoundIsTight(cfg: Config, request: Request, owner: string, m: nat, d: nat) returns (s: State)
    requires request.settings.lockTtl <= (m + 1) * Period(request.settings.lockTtl) + 2 * d
    ensures Renewed(cfg, s, 0, m, d) && s.attempts[0].request == request && !HoldsLock(s, s.attempts[0])
  {
    var lockTtl, p := request.settings.lockTtl, Period(request.settings.lockTtl);
    s := TakenAlone(cfg, request, owner, d);
    FewerBeats(1, m, p);
    if lockTtl <= d {
      NoWindowYet(s, m, d);
    } else if lockTtl < (m + 1) * p + 2 * d {
      OneStepFurther(cfg, s, Tick(lockTtl - d));
      s := Apply(cfg, s, Tick(lockTtl - d));
      NoWindowYet(s, m, d);
    } else {
      s := LateRenewalRefused(cfg, s, (m + 1) * p, d);
      FirstWindowMet(s, m, d, 1);
    }
  }

  /** Exactly which delays and misses a lock survives, over all runs. */
  lemma LeaseExactly(cfg: Config, request: Request, m: nat, d: nat)
    ensures (m + 1) * Period(request.settings.lockTtl) + 2 * d < request.settings.lockTtl <==>
      forall s: State, a: nat | Renewed(cfg, s, a, m, d) && s.attempts[a].request == request :: HoldsLock(s, s.attempts[a])
  {
    if (m + 1) * Period(request.settings.lockTtl) + 2 * d < request.settings.lockTtl {
      forall s: State, a: nat | Renewed(cfg, s, a, m, d) && s.attempts[a].request == request
        ensures HoldsLock(s, s.attempts[a])
      {
        RenewedLockNeverExpires(cfg, s, a, m, d);
      }
    } else {
      var s := LeaseBoundIsTight(cfg, request, "", m, d);
      assert Renewed(cfg, s, 0, m, d) && s.attempts[0].request == request;
    }
  }

  /** Without any delay or miss the period leaves room exactly from 2 ms on: a lock of 1 ms has no slack at all. */
  lemma SlackIffTwo(lockTtl: nat)
    ensures (0 + 1) * Period(lockTtl) + 2 * 0 < lockTtl <==> 2 <= lockTtl
  {
  }

  /** A lock of 1 ms, renewed by the first beat with no delay at all, is already gone: the renewal is refused. */
  lemma OneMillisecondLockIsLost<P>(r: Records<P>, key: string, owner: string, fingerprint: string, now: int)
    requires !Live(r, key, now)
    ensures var taken := Perform(r, Op<P>.Acquire(key, owner, fingerprint, 1), now, now);
            var beat := now + Period(1);
            && taken.reply == Acquired
            && Perform(taken.records, Op<P>.Extend(key, owner, 1), beat, beat).reply == Done(false)
  {
  }

  /**
   * With the default lockTtl of 60 s, one beat in a row may be missed if calls
   * land within 9.999 s; two may not, even if everything else is immediate.
   */
  lemma DefaultSlack(cfg: Config, request: Request, s: State, a: nat) returns (lost: State)
    requires request.settings.lockTtl == 60_000
    ensures Renewed(cfg, s, a, 1, 9_999) && s.attempts[a].request == request ==> HoldsLock(s, s.attempts[a])
    ensures Renewed(cfg, lost, 0, 2, 0) && lost.attempts[0].request == request && !HoldsLock(lost, lost.attempts[0])
  {
    LeaseExactly(cfg, request, 1, 9_999);
    lost := LeaseBoundIsTight(cfg, request, "", 2, 0);
  }

  /**
   * Why renewals must not overtake each other: a lock of 12 ms, with one beat
   * in a row missed and no landing more than 1 ms late. The renewal of beat 1,
   * which read the clock at 4, lands at 9, after that of beat 2, and moves the
   * expiry from 20 back to 16; beat 3 is missed, and at 16 the lock is gone.
   */
  lemma OvertakenRenewalLosesLock(cfg: Config, request: Request, owner: string) returns (before: State, s: State)
    requires request.settings.lockTtl == 12
    ensures Reachable(cfg, before) && before.clock == 9 && Enabled(cfg, before, Land(1, 4, 4))
    ensures before.records == map[request.storeKey := InFlight(request.fingerprint, owner, 20)]
    ensures Apply(cfg, before, Land(1, 4, 4)).records == map[request.storeKey := InFlight(request.fingerprint, owner, 16)]
    ensures Reachable(cfg, s) && |s.attempts| == 1 && s.attempts[0].phase == Executing && s.attempts[0].request == request
    ensures (1 + 1) * Period(request.settings.lockTtl) + 2 * 1 < request.settings.lockTtl
    ensures Won(s, s.attempts[0]) && s.attempts[0].startedAt == s.log[TakenAt(s, s.attempts[0])].stamp
    ensures BeatsOnSchedule(s, 0, 1, 1) && !HoldsLock(s, s.attempts[0])
  {
    before := RenewedTwice(cfg, request, owner);
    OneStepFurther(cfg, before, Land(1, 4, 4));
    s := Apply(cfg, before, Land(1, 4, 4));
    OneStepFurther(cfg, s, Tick(7));
    s := Apply(cfg, s, Tick(7));
    assert s.log[1].op == ExtendOp(s.attempts[0]) && s.log[1].Ended() == 8;
    assert BeatLanded(s, 0, 2, 1);
  }

  /** The renewal of beat 1 is out; that of beat 2 has landed and been confirmed. */
  lemma RenewedTwice(cfg: Config, request: Request, owner: string) returns (s: State)
    requires request.settings.lockTtl == 12
    ensures Reachable(cfg, s) && s.clock == 9
    ensures s.attempts == [Attempt(0, request, owner, true, false, Executing, 0, 0, None, None, false, None, None, [])]
    ensures |s.calls| == 3 && s.calls[0].landing == Some(0) && s.calls[1] == StoreCall(0, ExtendOp(s.attempts[0]), 4, None)
    ensures |s.log| == 2 && s.log[0] == Landing(0, AcquireOp(s.attempts[0]), 0, 0, 0, Acquired)
    ensures s.log[1] == Landing(2, ExtendOp(s.attempts[0]), 8, 8, 8, Done(true))
    ensures s.records == map[request.storeKey := InFlight(request.fingerprint, owner, 20)]
  {
    s := TakenAlone(cfg, request, owner, 0);
    s := RenewalOut(cfg, s, 4);
    s := RenewalAnswered(cfg, s, 4);
    OneStepFurther(cfg, s, Tick(1));
    s := Apply(cfg, s, Tick(1));
  }
}
