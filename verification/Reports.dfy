/** What the order in which an attempt's calls land decides: which way a late renewal moves the expiry, and which lock-lost reports are right. */
module Reports {
  import opened Wrappers
  import opened StoreContract
  import opened StoreRuns
  import opened JsValues
  import opened Protocol
  import opened ProtocolInvariant
  import opened ProtocolTheorems
  import opened LostLocks

  /** The attempt's calls landed in the order of their clock readings. */
  ghost predicate OwnInOrder(s: State, a: nat)
    requires a < |s.attempts|
  {
    InOrder(s.log, s.attempts[a].owner)
  }

  /**
   * Exactly when a late renewal is harmless: a renewal that lands on its live
   * lock moves the expiry back if and only if it was overtaken, that is, read
   * the clock earlier than the call `w` that set the present expiry, which is
   * the attempt's own acquire or another of its renewals.
   */
  lemma LateExtendExactly(cfg: Config, s: State, c: nat, check: int, stamp: int) returns (w: nat)
    requires Reachable(cfg, s) && Enabled(cfg, s, Land(c, check, stamp)) && s.calls[c].op.Extend?
    requires Holds(s.records, s.calls[c].op.key, s.calls[c].op.owner, check)
    ensures w < |s.log| && Wins(s.log[w]) && s.log[w].op.owner == s.calls[c].op.owner
    ensures s.log[w].op.Acquire? || s.log[w].op.Extend?
    ensures var key, s' := s.calls[c].op.key, Apply(cfg, s, Land(c, check, stamp));
      && key in s'.records
      && s'.records[key].expiresAt == stamp + s.calls[c].op.lockTtl
      && (s'.records[key].expiresAt < s.records[key].expiresAt <==> stamp < s.log[w].stamp)
  {
    ReachableKeeps(cfg, s);
    var key := s.calls[c].op.key;
    assert CallOk(cfg, s, c);
    EntryOrigin(s.log, key);
    w := LastWin(s.log, key);
    var who := WhoseLanding(cfg, s, w);
    SameOwnerSameAttempt(s, who, s.calls[c].attempt);
    assert AttemptOk(cfg, s, who);
    if s.log[w].op.Acquire? {
      assert s.log[w].call == s.attempts[who].acquireCall;
    }
  }

  /** Where the attempt's calls land in order, a renewal never moves the expiry back, however late it lands. */
  lemma LateExtendNeverShortens(cfg: Config, s: State, c: nat, check: int, stamp: int)
    requires Reachable(cfg, s) && Enabled(cfg, s, Land(c, check, stamp)) && s.calls[c].op.Extend?
    requires Holds(s.records, s.calls[c].op.key, s.calls[c].op.owner, check)
    requires InOrder(Apply(cfg, s, Land(c, check, stamp)).log, s.calls[c].op.owner)
    ensures var key, s' := s.calls[c].op.key, Apply(cfg, s, Land(c, check, stamp));
      key in s'.records && s.records[key].expiresAt <= s'.records[key].expiresAt
  {
    var w := LateExtendExactly(cfg, s, c, check, stamp);
    var log := Apply(cfg, s, Land(c, check, stamp)).log;
    assert log[w] == s.log[w] && log[|s.log|].stamp == stamp;
  }

  /** The store's answer told the attempt that it does not hold the lock, at landing `m`: to a renewal, or to the settling call. */
  ghost predicate ToldAt(s: State, a: nat, m: nat)
    requires a < |s.attempts|
  {
    var att := s.attempts[a];
    || (att.lost.Some? && Landed(s, att.lost.value) && m == s.calls[att.lost.value].landing.value)
    || (att.settleCall.Some? && Landed(s, att.settleCall.value) && m == s.calls[att.settleCall.value].landing.value
        && s.log[m].reply != Done(true))
  }

  lemma ToldLanding(cfg: Config, s: State, a: nat, m: nat)
    requires Inv(cfg, s) && a < |s.attempts| && Started(s.attempts[a]) && ToldAt(s, a, m)
    ensures m < |s.log| && s.log[m].op.owner == s.attempts[a].owner && s.log[m].op.key == s.attempts[a].request.storeKey
    ensures s.log[m].reply == Done(false)
    ensures Won(s, s.attempts[a]) && forall i :: m < i < |s.log| && s.log[i].op.owner == s.attempts[a].owner ==> !s.log[i].op.Acquire?
    ensures s.log[m].check <= s.clock
  {
    var att := s.attempts[a];
    assert AttemptOk(cfg, s, a);
    AcquireLanding(cfg, s, a);
    var who := WhoseLanding(cfg, s, m);
    ReplyAt(s.log, m);
    Fencing(After(s.log[..m]), s.log[m].op, s.log[m].check, s.log[m].stamp);
    TimeGoesOn(s.log, m, m);
    forall i | m < i < |s.log| && s.log[i].op.owner == att.owner
      ensures !s.log[i].op.Acquire?
    {
      var other := WhoseLanding(cfg, s, i);
      SameOwnerSameAttempt(s, other, a);
    }
  }

  /**
   * A lock-lost report is right whenever the store's answer told it, on every
   * store where the attempt's calls land in order: from then on the attempt
   * holds no lock, each of its calls is answered false, and its outcome is
   * never stored, in this state and so in every later one.
   */
  lemma LostReportIsRight(cfg: Config, s: State, a: nat, m: nat)
    requires Reachable(cfg, s) && a < |s.attempts| && Started(s.attempts[a]) && ToldAt(s, a, m) && OwnInOrder(s, a)
    ensures Lost(s, a)
    ensures forall i :: m <= i < |s.log| && s.log[i].op.owner == s.attempts[a].owner ==> s.log[i].reply == Done(false)
    ensures forall i :: 0 <= i < |s.log| && s.log[i].op.owner == s.attempts[a].owner && s.log[i].op.Complete? ==>
      s.log[i].reply == Done(false)
  {
    ReachableKeeps(cfg, s);
    ToldLanding(cfg, s, a, m);
    RefusedIsLost(s.log, m, s.clock);
    var att := s.attempts[a];
    assert AttemptOk(cfg, s, a);
    forall i | 0 <= i < |s.log| && s.log[i].op.owner == att.owner
      ensures m <= i ==> s.log[i].reply == Done(false)
      ensures s.log[i].op.Complete? ==> m <= i
    {
      var who := WhoseLanding(cfg, s, i);
      SameOwnerSameAttempt(s, who, a);
    }
  }

  /**
   * Which reports can be wrong: if an attempt reported a lost lock and yet its
   * outcome is stored, the report came from a record step that failed without
   * an answer, and the answer it missed was `true`.
   */
  lemma WrongReportHadNoAnswer(cfg: Config, s: State, a: nat, i: nat)
    requires Reachable(cfg, s) && a < |s.attempts| && OwnInOrder(s, a) && s.attempts[a].lostEvents != []
    requires i < |s.log| && s.log[i].op.owner == s.attempts[a].owner && s.log[i].op.Complete? && s.log[i].reply == Done(true)
    ensures s.attempts[a].phase == Recorded(false) && s.attempts[a].lostEvents == [InComplete] && s.attempts[a].lost.None?
  {
    ReachableKeeps(cfg, s);
    var att := s.attempts[a];
    assert AttemptOk(cfg, s, a);
    var who := WhoseLanding(cfg, s, i);
    SameOwnerSameAttempt(s, who, a);
    if att.lost.Some? {
      LostReportIsRight(cfg, s, a, s.calls[att.lost.value].landing.value);
    }
  }
}
