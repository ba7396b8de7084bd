/**
 * Runs of a single attempt that show what the conditions of the theorems are
 * needed for: answers that come too late, and clock readings that are old when
 * the call that carries them lands.
 */
module Scenarios {
  import opened Wrappers
  import opened StoreContract
  import opened StoreRuns
  import opened JsValues
  import opened Protocol
  import opened ProtocolInvariant
  import opened ProtocolTheorems
  import opened LostLocks
  import opened Reports

  lemma OneStepFurther(cfg: Config, s: State, action: Action)
    requires Reachable(cfg, s) && Enabled(cfg, s, action)
    ensures Reachable(cfg, Apply(cfg, s, action))
  {
    var states, actions :| Run(cfg, states, actions) && states[|states| - 1] == s;
    var states', actions' := states + [Apply(cfg, s, action)], actions + [action];
    forall i | 0 <= i < |actions'|
      ensures StepAt(cfg, states', actions', i)
    {
      if i < |actions| {
        assert StepAt(cfg, states, actions, i);
      }
    }
    assert states'[0] == states[0];
    assert Run(cfg, states', actions') && states'[|states'| - 1] == Apply(cfg, s, action);
  }

  /** One caller, whose acquire landed at 0 and was answered at `delay`. */
  lemma TakenAlone(cfg: Config, request: Request, owner: string, delay: nat) returns (s: State)
    ensures Reachable(cfg, s) && s.clock == delay && |s.attempts| == 1
    ensures s.attempts[0] == Attempt(0, request, owner, true, false, Executing, delay, 0, None, None, false, None, None, [])
    ensures s.calls == [StoreCall(0, AcquireOp(s.attempts[0]), 0, Some(0))]
    ensures s.log == [Landing(0, AcquireOp(s.attempts[0]), 0, 0, 0, Acquired)]
    ensures s.records == map[request.storeKey := InFlight(request.fingerprint, owner, request.settings.lockTtl)]
  {
    s := Start(0);
    assert Run(cfg, [s], []) && [s][|[s]| - 1] == s;
    OneStepFurther(cfg, s, Begin(0, request, owner));
    s := Apply(cfg, s, Begin(0, request, owner));
    assert s.calls[0].op == Acquire(request.storeKey, owner, request.fingerprint, request.settings.lockTtl);
    OneStepFurther(cfg, s, Land(0, 0, 0));
    s := Apply(cfg, s, Land(0, 0, 0));
    assert s.log[0].reply == Acquired;
    OneStepFurther(cfg, s, Tick(delay));
    s := Apply(cfg, s, Tick(delay));
    OneStepFurther(cfg, s, AcquireAnswered(0));
    s := Apply(cfg, s, AcquireAnswered(0));
  }

  /**
   * A report without an answer can be wrong on any store: a run in which the
   * answer to `complete` comes too late, so that the loss is told, and the
   * outcome is stored all the same.
   */
  lemma LostReportMayBeWrong(cfg: Config, request: Request, owner: string, response: StoredResponse, nonce: string)
    returns (s: State)
    requires 0 < request.settings.lockTtl && Storable(response) && cfg.codec.seal(request.storeKey, response, nonce).Some?
    ensures Reachable(cfg, s) && |s.attempts| == 1
    ensures s.attempts[0].phase == Recorded(false) && s.attempts[0].lostEvents == [InComplete]
    ensures s.records == map[request.storeKey :=
      Completed(request.fingerprint, cfg.codec.seal(request.storeKey, response, nonce).value, request.settings.ttl)]
  {
    s := TakenAlone(cfg, request, owner, 0);
    s := Finished(cfg, s, response, nonce);
    s := AnswerMissed(cfg, s);
  }

  /** The call that settles the attempt gets no answer, and lands. */
  lemma AnswerMissed(cfg: Config, s: State) returns (s': State)
    requires Reachable(cfg, s) && |s.attempts| == 1 && s.attempts[0].alive && s.attempts[0].phase.Recording?
    requires |s.calls| == 2 && s.calls[1].landing.None? && s.calls[1].issuedAt == s.clock
    ensures Reachable(cfg, s') && s'.attempts == [Confirmed(s.attempts[0], false)]
    ensures s'.records == Perform(s.records, s.calls[1].op, s.clock, s.clock).records
  {
    OneStepFurther(cfg, s, RecordFailed(0));
    s' := Apply(cfg, s, RecordFailed(0));
    OneStepFurther(cfg, s', Land(1, s.clock, s.clock));
    s' := Apply(cfg, s', Land(1, s.clock, s.clock));
  }

  /** The handler ends with an outcome, and the call that stores it is issued. */
  lemma Finished(cfg: Config, s: State, response: StoredResponse, nonce: string) returns (s': State)
    requires Reachable(cfg, s) && |s.attempts| == 1 && s.attempts[0].alive && s.attempts[0].phase.Executing?
    requires Storable(response) && cfg.codec.seal(s.attempts[0].request.storeKey, response, nonce).Some?
    ensures Reachable(cfg, s')
    ensures var (att, request) := (s.attempts[0], s.attempts[0].request);
      var sealed := cfg.codec.seal(request.storeKey, response, nonce).value;
      && s' == s.(attempts := [att.(phase := Recording, outcome := Some(response), settleCall := Some(|s.calls|))],
                  calls := s.calls + [StoreCall(0, Complete(request.storeKey, att.owner, sealed, request.settings.ttl), s.clock, None)])
  {
    OneStepFurther(cfg, s, Finish(0, Some(response), nonce));
    s' := Apply(cfg, s, Finish(0, Some(response), nonce));
  }

  ghost predicate Renewing(s: State) {
    && |s.attempts| == 1 && s.attempts[0].alive && s.attempts[0].phase.Executing?
    && !s.attempts[0].stopped && s.attempts[0].pending.None?
  }

  /** `ms` later a renewal is issued and times out. */
  lemma RenewalOut(cfg: Config, s: State, ms: nat) returns (s': State)
    requires Reachable(cfg, s) && Renewing(s)
    ensures Reachable(cfg, s')
    ensures s' == s.(clock := s.clock + ms, calls := s.calls + [StoreCall(0, ExtendOp(s.attempts[0]), s.clock + ms, None)])
  {
    OneStepFurther(cfg, s, Tick(ms));
    s' := Apply(cfg, s, Tick(ms));
    OneStepFurther(cfg, s', Beat(0));
    s' := Apply(cfg, s', Beat(0));
    OneStepFurther(cfg, s', BeatFailed(0));
    s' := Apply(cfg, s', BeatFailed(0));
    assert s'.attempts == s.attempts;
  }

  /** `ms` later a renewal is issued, lands and is answered at once. */
  lemma RenewalAnswered(cfg: Config, s: State, ms: nat) returns (s': State)
    requires Reachable(cfg, s) && Renewing(s)
    ensures Reachable(cfg, s')
    ensures var (now, op, c) := (s.clock + ms, ExtendOp(s.attempts[0]), |s.calls|);
      var out := Perform(s.records, op, now, now);
      && s'.clock == now && s'.records == out.records
      && s'.calls == s.calls + [StoreCall(0, op, now, Some(|s.log|))]
      && s'.log == s.log + [Landing(c, op, now, now, now, out.reply)]
      && s'.attempts == [if out.reply == Done(true) then s.attempts[0] else Refuted(s.attempts[0].(pending := Some(c)))]
  {
    OneStepFurther(cfg, s, Tick(ms));
    s' := Apply(cfg, s, Tick(ms));
    OneStepFurther(cfg, s', Beat(0));
    s' := Apply(cfg, s', Beat(0));
    var c := |s.calls|;
    OneStepFurther(cfg, s', Land(c, s'.clock, s'.clock));
    s' := Apply(cfg, s', Land(c, s'.clock, s'.clock));
    OneStepFurther(cfg, s', BeatAnswered(0));
    s' := Apply(cfg, s', BeatAnswered(0));
  }

  /**
   * A lock of 3 ms, taken at 0. A renewal that read the clock at 2 times out
   * before it lands; another, at 4, is refused, so the loss is told.
   */
  lemma ToldWhileOneIsOut(cfg: Config, request: Request, owner: string) returns (s: State)
    requires request.settings.lockTtl == 3
    ensures Reachable(cfg, s) && s.clock == 4 && |s.attempts| == 1 && |s.calls| == 3 && |s.log| == 2
    ensures s.attempts[0] ==
      Attempt(0, request, owner, true, false, Executing, 0, 0, None, None, true, None, Some(2), [InExtend])
    ensures s.calls[0].landing == Some(0)
    ensures s.calls[1] == StoreCall(0, ExtendOp(s.attempts[0]), 2, None)
    ensures s.calls[2] == StoreCall(0, ExtendOp(s.attempts[0]), 4, Some(1)) && s.log[1].reply == Done(false)
    ensures s.log[0].reply == Acquired
    ensures s.records == map[request.storeKey := InFlight(request.fingerprint, owner, 3)]
    ensures Lost(s, 0)
  {
    s := TakenAlone(cfg, request, owner, 0);
    s := RenewalOut(cfg, s, 2);
    s := RenewalAnswered(cfg, s, 2);
  }

  /**
   * A client's early reading brings a lost lock back: the renewal that read
   * the clock at 2 lands at 4, when the lock has been lost and the loss told,
   * and the attempt holds the live lock again.
   */
  lemma StaleRenewalRevives(cfg: Config, request: Request, owner: string) returns (lost: State, s: State)
    requires request.settings.lockTtl == 3
    ensures Reachable(cfg, lost) && Lost(lost, 0) && lost.attempts[0].lost.Some?
    ensures Enabled(cfg, lost, Land(1, 2, 2)) && s == Apply(cfg, lost, Land(1, 2, 2))
    ensures Reachable(cfg, s) && |s.attempts| == 1 && HoldsLock(s, s.attempts[0])
    ensures s.clock == 4 && |s.calls| == 3 && |s.log| == 3 && s.attempts == lost.attempts
    ensures s.attempts[0] ==
      Attempt(0, request, owner, true, false, Executing, 0, 0, None, None, true, None, Some(2), [InExtend])
    ensures s.records == map[request.storeKey := InFlight(request.fingerprint, owner, 5)]
  {
    lost := ToldWhileOneIsOut(cfg, request, owner);
    OneStepFurther(cfg, lost, Land(1, 2, 2));
    s := Apply(cfg, lost, Land(1, 2, 2));
  }

  /** And the outcome is then stored and confirmed, although a refused renewal had told the loss. */
  lemma StaleRenewalBeliesReport(cfg: Config, request: Request, owner: string, response: StoredResponse, nonce: string)
    returns (s: State)
    requires request.settings.lockTtl == 3 && Storable(response) && cfg.codec.seal(request.storeKey, response, nonce).Some?
    ensures Reachable(cfg, s) && |s.attempts| == 1
    ensures s.attempts[0].phase == Recorded(true) && s.attempts[0].lostEvents == [InExtend]
    ensures s.records == map[request.storeKey :=
      Completed(request.fingerprint, cfg.codec.seal(request.storeKey, response, nonce).value, 4 + request.settings.ttl)]
  {
    var lost;
    lost, s := StaleRenewalRevives(cfg, request, owner);
    s := Finished(cfg, s, response, nonce);
    OneStepFurther(cfg, s, Land(3, 4, 4));
    s := Apply(cfg, s, Land(3, 4, 4));
    assert s.log[3].reply == Done(true);
    OneStepFurther(cfg, s, RecordAnswered(0));
    s := Apply(cfg, s, RecordAnswered(0));
  }
}
