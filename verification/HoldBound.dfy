/**
 * How long a key can stay blocked: the bounds that rest on an attempt's own
 * timers firing on time. Everything else the protocol promises holds in runs
 * where timers are late.
 */
module HoldBound {
  import opened Wrappers
  import opened StoreContract
  import opened StoreRuns
  import opened JsValues
  import opened Protocol
  import opened ProtocolInvariant
  import opened ProtocolTheorems

  /** The clock does not pass the attempt's ceiling while its handler runs, nor the store timeout of its record step. */
  predicate OnTime(cfg: Config, s: State, until: int, a: nat) {
    a < |s.attempts| && s.attempts[a].alive ==>
      var att := s.attempts[a];
      && (att.phase.Executing? && !att.stopped ==> until <= att.startedAt + att.HoldLimit())
      && (att.phase.Recording? && att.settleCall.Some? && att.settleCall.value < |s.calls| ==>
            until <= s.calls[att.settleCall.value].issuedAt + cfg.storeTimeout)
  }

  /** In the whole run, the timers of attempt `a` fire on time. */
  ghost predicate Punctual(cfg: Config, states: seq<State>, actions: seq<Action>, a: nat)
    requires |states| == |actions| + 1
  {
    forall n {:trigger actions[n]} :: 0 <= n < |actions| ==> OnTime(cfg, states[n], states[n + 1].clock, a)
  }

  function LastBeat(cfg: Config, att: Attempt): int {
    att.startedAt + att.HoldLimit() + cfg.storeTimeout
  }

  ghost predicate RenewalsInTime(cfg: Config, s: State, a: nat)
    requires a < |s.attempts|
  {
    forall c :: 0 <= c < |s.calls| && s.calls[c].attempt == a && s.calls[c].op.Extend? ==>
      s.calls[c].issuedAt <= LastBeat(cfg, s.attempts[a])
  }

  /** What punctual timers keep true of an attempt. */
  ghost predicate Bounded(cfg: Config, s: State, a: nat) {
    a < |s.attempts| ==> TimersBounded(cfg, s, a) && RenewalsInTime(cfg, s, a)
  }

  /** The part of the bound that is about timers. */
  ghost predicate TimersBounded(cfg: Config, s: State, a: nat)
    requires a < |s.attempts|
  {
    var att := s.attempts[a];
    && OnTime(cfg, s, s.clock, a)
    && (att.phase.Recording? && att.settleCall.Some? && att.settleCall.value < |s.calls| && !att.stopped ==>
          s.calls[att.settleCall.value].issuedAt <= att.startedAt + att.HoldLimit())
  }

  lemma OwnTimers(cfg: Config, s: State, action: Action, a: nat)
    requires Enabled(cfg, s, action) && IsAttemptAction(action) && action.a == a && AttemptOk(cfg, s, a)
    requires TimersBounded(cfg, s, a)
    ensures TimersBounded(cfg, Apply(cfg, s, action), a)
  {
    if action.Finish? || action.AcquireAnswered? {
      TimersStart(cfg, s, action, a);
    }
  }

  /** Starting the handler starts the ceiling, and ending it starts the store timeout. */
  lemma TimersStart(cfg: Config, s: State, action: Action, a: nat)
    requires Enabled(cfg, s, action) && (action.Finish? || action.AcquireAnswered?) && action.a == a && AttemptOk(cfg, s, a)
    requires TimersBounded(cfg, s, a)
    ensures TimersBounded(cfg, Apply(cfg, s, action), a)
  {
    if action.Finish? {
      SettleStarts(cfg, s, action);
    } else {
      HandlerStarts(cfg, s, action);
    }
  }

  lemma SettleStarts(cfg: Config, s: State, action: Action)
    requires Enabled(cfg, s, action) && action.Finish? && TimersBounded(cfg, s, action.a)
    ensures TimersBounded(cfg, Apply(cfg, s, action), action.a)
  {
  }

  lemma HandlerStarts(cfg: Config, s: State, action: Action)
    requires Enabled(cfg, s, action) && action.AcquireAnswered? && TimersBounded(cfg, s, action.a)
    requires AttemptOk(cfg, s, action.a)
    ensures TimersBounded(cfg, Apply(cfg, s, action), action.a)
  {
  }

  /** Only a beat issues a renewal, and it does so in time. */
  lemma OwnRenewal(cfg: Config, s: State, action: Action, a: nat)
    requires Enabled(cfg, s, action) && IsAttemptAction(action) && action.a == a && AttemptOk(cfg, s, a)
    requires TimersBounded(cfg, s, a)
    ensures var s' := Apply(cfg, s, action);
      |s.calls| < |s'.calls| && s'.calls[|s.calls|].op.Extend? ==>
        s'.calls[|s.calls|].issuedAt <= LastBeat(cfg, s'.attempts[a])
  {
  }

  lemma BoundedAcrossOwnStep(cfg: Config, s: State, action: Action, a: nat)
    requires Inv(cfg, s) && Enabled(cfg, s, action) && IsAttemptAction(action) && action.a == a
    requires Bounded(cfg, s, a)
    ensures Bounded(cfg, Apply(cfg, s, action), a)
  {
    var s' := Apply(cfg, s, action);
    assert AttemptOk(cfg, s, a);
    AttemptActionKeeps(cfg, s, action);
    OwnTimers(cfg, s, action, a);
    OwnRenewal(cfg, s, action, a);
    RenewalsStayInTime(cfg, s, s', a);
  }

  lemma RenewalsStayInTime(cfg: Config, s: State, s': State, a: nat)
    requires CallsOk(cfg, s) && StepsAlone(cfg, s, s', a) && RenewalsInTime(cfg, s, a)
    requires |s.calls| < |s'.calls| && s'.calls[|s.calls|].op.Extend? ==>
      s'.calls[|s.calls|].issuedAt <= LastBeat(cfg, s'.attempts[a])
    ensures RenewalsInTime(cfg, s', a)
  {
    forall c | 0 <= c < |s'.calls| && s'.calls[c].attempt == a && s'.calls[c].op.Extend?
      ensures s'.calls[c].issuedAt <= LastBeat(cfg, s'.attempts[a])
    {
      if c < |s.calls| {
        assert CallOk(cfg, s, c);
      }
    }
  }

  lemma BoundedAcrossOthersStep(cfg: Config, s: State, s': State, a: nat)
    requires Inv(cfg, s) && a < |s.attempts| <= |s'.attempts| && Bounded(cfg, s, a) && OnTime(cfg, s, s'.clock, a)
    requires var att := s.attempts[a]; s'.attempts[a] in {att, att.(stopped := true), att.(alive := false)}
    requires |s.calls| <= |s'.calls|
    requires forall c :: 0 <= c < |s.calls| ==> s'.calls[c].(landing := None) == s.calls[c].(landing := None)
    requires forall c :: |s.calls| <= c < |s'.calls| ==> s'.calls[c].attempt != a
    ensures Bounded(cfg, s', a)
  {
    assert AttemptOk(cfg, s, a);
    forall c | 0 <= c < |s'.calls| && s'.calls[c].attempt == a && s'.calls[c].op.Extend?
      ensures s'.calls[c].issuedAt <= LastBeat(cfg, s'.attempts[a])
    {
      assert s'.calls[c].(landing := None) == s.calls[c].(landing := None);
    }
    if s.attempts[a].settleCall.Some? {
      var c := s.attempts[a].settleCall.value;
      assert s'.calls[c].(landing := None) == s.calls[c].(landing := None);
    }
  }

  lemma NewIsBounded(cfg: Config, s: State, process: nat, request: Request, owner: string)
    requires Inv(cfg, s) && Enabled(cfg, s, Begin(process, request, owner))
    ensures Bounded(cfg, Apply(cfg, s, Begin(process, request, owner)), |s.attempts|)
  {
  }

  lemma BoundedAcrossStep(cfg: Config, s: State, action: Action, a: nat)
    requires Inv(cfg, s) && Enabled(cfg, s, action) && Bounded(cfg, s, a) && OnTime(cfg, s, Apply(cfg, s, action).clock, a)
    ensures Bounded(cfg, Apply(cfg, s, action), a)
  {
    var s' := Apply(cfg, s, action);
    if a < |s.attempts| {
      if IsAttemptAction(action) && action.a == a {
        BoundedAcrossOwnStep(cfg, s, action, a);
      } else {
        OthersStep(cfg, s, action, a);
        BoundedAcrossOthersStep(cfg, s, s', a);
      }
    } else if action.Begin? && a == |s.attempts| {
      NewIsBounded(cfg, s, action.process, action.request, action.owner);
    } else if IsAttemptAction(action) {
      AttemptActionKeeps(cfg, s, action);
    }
  }

  /** A step that is not the attempt's own leaves it as it is, but for its process stopping or dying. */
  lemma OthersStep(cfg: Config, s: State, action: Action, a: nat)
    requires Enabled(cfg, s, action) && a < |s.attempts| && !(IsAttemptAction(action) && action.a == a)
    ensures var (s', att) := (Apply(cfg, s, action), s.attempts[a]);
      && |s.attempts| <= |s'.attempts| && s'.attempts[a] in {att, att.(stopped := true), att.(alive := false)}
      && |s.calls| <= |s'.calls|
      && (forall c :: 0 <= c < |s.calls| ==> s'.calls[c].(landing := None) == s.calls[c].(landing := None))
      && (forall c :: |s.calls| <= c < |s'.calls| ==> s'.calls[c].attempt != a)
  {
    if IsAttemptAction(action) {
      OthersCall(cfg, s, action, a);
    } else if action.Shutdown? || action.Crash? {
      ProcessWideEvolves(cfg, s, action);
    }
  }

  lemma OthersCall(cfg: Config, s: State, action: Action, a: nat)
    requires Enabled(cfg, s, action) && IsAttemptAction(action) && action.a != a && a < |s.attempts|
    ensures var s' := Apply(cfg, s, action);
      && |s'.attempts| == |s.attempts| && s'.attempts[a] == s.attempts[a] && s'.clock == s.clock
      && |s.calls| <= |s'.calls| && (forall c :: 0 <= c < |s.calls| ==> s'.calls[c] == s.calls[c])
      && (forall c :: |s.calls| <= c < |s'.calls| ==> s'.calls[c].attempt != a)
  {
    NewCallIsOwn(cfg, s, action);
  }

  lemma PunctualStep(cfg: Config, states: seq<State>, actions: seq<Action>, a: nat, n: nat)
    requires Run(cfg, states, actions) && Punctual(cfg, states, actions, a) && n < |actions| && Bounded(cfg, states[n], a)
    ensures Bounded(cfg, states[n + 1], a)
  {
    RunKeeps(cfg, states, actions, n);
    assert StepAt(cfg, states, actions, n);
    BoundedAcrossStep(cfg, states[n], actions[n], a);
  }

  lemma {:induction false} PunctualKeeps(cfg: Config, states: seq<State>, actions: seq<Action>, a: nat, i: nat)
    requires Run(cfg, states, actions) && Punctual(cfg, states, actions, a) && i < |states|
    ensures Bounded(cfg, states[i], a)
    decreases i
  {
    if i > 0 {
      PunctualKeeps(cfg, states, actions, a, i - 1);
      PunctualStep(cfg, states, actions, a, i - 1);
    }
  }

  /** No renewal is issued later than min(maxLockHold, 2 ** 31 - 1) plus one store timeout after the handler started. */
  lemma RenewalsEnd(cfg: Config, states: seq<State>, actions: seq<Action>, a: nat, c: nat)
    requires Run(cfg, states, actions) && Punctual(cfg, states, actions, a)
    requires var s := states[|states| - 1]; c < |s.calls| && s.calls[c].attempt == a && s.calls[c].op.Extend?
    ensures var s := states[|states| - 1];
      a < |s.attempts| && Started(s.attempts[a])
      && var maxLockHold := s.attempts[a].request.settings.maxLockHold;
         s.calls[c].issuedAt <=
           s.attempts[a].startedAt + (if maxLockHold < 0x7FFF_FFFF then maxLockHold else 0x7FFF_FFFF) + cfg.storeTimeout
  {
    var s := states[|states| - 1];
    RunKeeps(cfg, states, actions, |states| - 1);
    PunctualKeeps(cfg, states, actions, a, |states| - 1);
    assert CallOk(cfg, s, c);
  }

  /** Every call of the attempt that landed stamped its entry within `d` of being issued. */
  ghost predicate LandsWithin(s: State, a: nat, d: nat) {
    forall l :: 0 <= l < |s.log| && s.log[l].call < |s.calls| && s.calls[s.log[l].call].attempt == a ==>
      s.log[l].stamp <= s.calls[s.log[l].call].issuedAt + d
  }

  /**
   * Hold bound: an attempt's lock, however long its handler or the store
   * hangs, expires at most the hold limit, one store timeout, the landing
   * delay and lockTtl after it started; a lock whose attempt never reached
   * execution was never renewed, and lasts exactly lockTtl.
   */
  lemma BlockedNoLongerThan(cfg: Config, states: seq<State>, actions: seq<Action>, a: nat, d: nat)
    requires Run(cfg, states, actions) && Punctual(cfg, states, actions, a)
    requires var s := states[|states| - 1]; a < |s.attempts| && LandsWithin(s, a, d)
    requires var s := states[|states| - 1]; Mine(s.records, s.attempts[a].request.storeKey, s.attempts[a].owner)
    ensures var s := states[|states| - 1];
      var (att, expiresAt) := (s.attempts[a], s.records[s.attempts[a].request.storeKey].expiresAt);
      if Started(att) then
        var maxLockHold := att.request.settings.maxLockHold;
        expiresAt <=
          att.startedAt + (if maxLockHold < 0x7FFF_FFFF then maxLockHold else 0x7FFF_FFFF)
            + cfg.storeTimeout + d + att.request.settings.lockTtl
      else
        Landed(s, att.acquireCall) && expiresAt == s.log[TakenAt(s, att)].stamp + att.request.settings.lockTtl
  {
    var s := states[|states| - 1];
    RunKeeps(cfg, states, actions, |states| - 1);
    PunctualKeeps(cfg, states, actions, a, |states| - 1);
    var att := s.attempts[a];
    var key := att.request.storeKey;
    EntryOrigin(s.log, key);
    var w := LastWin(s.log, key);
    var who := WhoseLanding(cfg, s, w);
    SameOwnerSameAttempt(s, who, a);
    assert AttemptOk(cfg, s, a);
    TimeGoesOn(s.log, w, w);
    if s.log[w].op.Acquire? {
      assert s.log[w].call == att.acquireCall;
    } else {
      assert s.calls[s.log[w].call].issuedAt <= LastBeat(cfg, att);
    }
  }
}
