/**
 * What ends what, over whole runs: callers that leave, renewals that stop,
 * shutdowns and ceilings, and one renewal at a time.
 */
module Lifecycle {
  import opened Wrappers
  import opened StoreContract
  import opened StoreRuns
  import opened JsValues
  import opened Protocol
  import opened ProtocolInvariant

  /** How one step can change an attempt's flags, whoever takes it. */
  ghost predicate FlagsStep(s: State, action: Action, att: Attempt, att': Attempt, a: nat) {
    && att'.request == att.request && att'.process == att.process && att'.acquireCall == att.acquireCall
    && (att'.closed <==> att.closed || action == Leave(a))
    && (att.alive || !att'.alive)
    && (Started(att) ==> Started(att') && att'.startedAt == att.startedAt && (att.stopped ==> att'.stopped))
    && (Started(att') && !Started(att) ==> action == AcquireAnswered(a) && !att.closed)
    && (att'.phase.Abandoned? && !att.phase.Abandoned? ==> action == AcquireAnswered(a) && att.closed)
    && (att.phase.Abandoned? ==> att'.phase.Abandoned?)
  }

  lemma OwnFlags(cfg: Config, s: State, action: Action)
    requires Enabled(cfg, s, action) && IsAttemptAction(action)
    ensures action.a < |s.attempts| == |Apply(cfg, s, action).attempts|
    ensures FlagsStep(s, action, s.attempts[action.a], Apply(cfg, s, action).attempts[action.a], action.a)
  {
    match action {
      case AcquireAnswered(a) => AnsweredFlags(cfg, s, a);
      case Finish(a, outcome, nonce) => FinishFlags(cfg, s, a, outcome, nonce);
      case _ =>
    }
  }

  lemma AnsweredFlags(cfg: Config, s: State, a: nat)
    requires Enabled(cfg, s, AcquireAnswered(a))
    ensures |s.attempts| == |Apply(cfg, s, AcquireAnswered(a)).attempts|
    ensures FlagsStep(s, AcquireAnswered(a), s.attempts[a], Apply(cfg, s, AcquireAnswered(a)).attempts[a], a)
  {
  }

  lemma FinishFlags(cfg: Config, s: State, a: nat, outcome: Option<StoredResponse>, nonce: string)
    requires Enabled(cfg, s, Finish(a, outcome, nonce))
    ensures |s.attempts| == |Apply(cfg, s, Finish(a, outcome, nonce)).attempts|
    ensures FlagsStep(s, Finish(a, outcome, nonce), s.attempts[a], Apply(cfg, s, Finish(a, outcome, nonce)).attempts[a], a)
  {
  }

  lemma AnyFlags(cfg: Config, s: State, action: Action, a: nat)
    requires Enabled(cfg, s, action) && a < |s.attempts|
    ensures a < |Apply(cfg, s, action).attempts|
    ensures FlagsStep(s, action, s.attempts[a], Apply(cfg, s, action).attempts[a], a)
  {
    if IsAttemptAction(action) {
      OwnFlags(cfg, s, action);
      NewCallIsOwn(cfg, s, action);
    } else if action.Shutdown? || action.Crash? {
      ProcessWideEvolves(cfg, s, action);
    }
  }

  lemma FlagsAt(cfg: Config, states: seq<State>, actions: seq<Action>, n: nat, a: nat)
    requires Run(cfg, states, actions) && n < |actions| && a < |states[n].attempts|
    ensures a < |states[n + 1].attempts|
    ensures FlagsStep(states[n], actions[n], states[n].attempts[a], states[n + 1].attempts[a], a)
  {
    assert StepAt(cfg, states, actions, n);
    AnyFlags(cfg, states[n], actions[n], a);
  }

  /** The caller of an attempt leaves at step `i`. */
  predicate LeavesAt(actions: seq<Action>, i: nat, a: nat)
    requires i < |actions|
  {
    actions[i] == Leave(a)
  }

  lemma {:induction false} StaysUnstarted(cfg: Config, states: seq<State>, actions: seq<Action>, i: nat, j: nat, a: nat)
    requires Run(cfg, states, actions) && i <= j < |states| && a < |states[i].attempts|
    requires states[i].attempts[a].closed && !Started(states[i].attempts[a])
    ensures a < |states[j].attempts| && states[j].attempts[a].closed && !Started(states[j].attempts[a])
    decreases j
  {
    if i < j {
      StaysUnstarted(cfg, states, actions, i, j - 1, a);
      FlagsAt(cfg, states, actions, j - 1, a);
    }
  }

  /**
   * A caller that leaves before its handler was called never has it called:
   * in every run, whatever lands or is answered after it left.
   */
  lemma LeftNeverStarts(cfg: Config, states: seq<State>, actions: seq<Action>, i: nat, j: nat, a: nat)
    requires Run(cfg, states, actions) && i < j < |states| && LeavesAt(actions, i, a)
    requires a < |states[i].attempts| && !Started(states[i].attempts[a])
    ensures a < |states[j].attempts| && !Started(states[j].attempts[a])
  {
    FlagsAt(cfg, states, actions, i, a);
    assert !Started(states[i + 1].attempts[a]);
    StaysUnstarted(cfg, states, actions, i + 1, j, a);
  }

  /** `closed` is that the caller has left. */
  lemma {:induction false} ClosedMeansLeft(cfg: Config, states: seq<State>, actions: seq<Action>, n: nat, a: nat)
    requires Run(cfg, states, actions) && n < |states| && a < |states[n].attempts|
    ensures states[n].attempts[a].closed <==> exists i :: 0 <= i < n && LeavesAt(actions, i, a)
    decreases n
  {
    if n > 0 {
      var m := n - 1;
      assert StepAt(cfg, states, actions, m);
      if a < |states[m].attempts| {
        ClosedMeansLeft(cfg, states, actions, m, a);
        FlagsAt(cfg, states, actions, m, a);
        if states[n].attempts[a].closed && !states[m].attempts[a].closed {
          assert LeavesAt(actions, m, a);
        }
      } else {
        NobodyLeftYet(cfg, states, actions, m, a);
      }
    }
  }

  lemma {:induction false} OnlyGrow(cfg: Config, states: seq<State>, actions: seq<Action>, i: nat, j: nat)
    requires Run(cfg, states, actions) && i <= j < |states|
    ensures |states[i].attempts| <= |states[j].attempts|
    decreases j
  {
    if i < j {
      OnlyGrow(cfg, states, actions, i, j - 1);
      assert StepAt(cfg, states, actions, j - 1);
      AttemptsGrow(cfg, states[j - 1], actions[j - 1]);
    }
  }

  lemma AttemptsGrow(cfg: Config, s: State, action: Action)
    requires Enabled(cfg, s, action)
    ensures |s.attempts| <= |Apply(cfg, s, action).attempts| <= |s.attempts| + 1
    ensures |s.attempts| < |Apply(cfg, s, action).attempts| ==> action.Begin? && !Apply(cfg, s, action).attempts[|s.attempts|].closed
  {
    if IsAttemptAction(action) {
      NewCallIsOwn(cfg, s, action);
    }
  }

  lemma NobodyLeftYet(cfg: Config, states: seq<State>, actions: seq<Action>, m: nat, a: nat)
    requires Run(cfg, states, actions) && m < |actions| && |states[m].attempts| <= a < |states[m + 1].attempts|
    ensures !states[m + 1].attempts[a].closed
    ensures forall i :: 0 <= i <= m ==> !LeavesAt(actions, i, a)
  {
    assert StepAt(cfg, states, actions, m);
    AttemptsGrow(cfg, states[m], actions[m]);
    forall i | 0 <= i <= m
      ensures !LeavesAt(actions, i, a)
    {
      assert StepAt(cfg, states, actions, i);
      OnlyGrow(cfg, states, actions, i, m);
    }
  }

  /**
   * What an attempt that took the lock does when it hears of it, in every run:
   * it calls the handler exactly if its caller is still there, and otherwise
   * gives the key back with a release of its own.
   */
  lemma AcquiredDecides(cfg: Config, states: seq<State>, actions: seq<Action>, n: nat, a: nat)
    requires Run(cfg, states, actions) && n < |actions| && actions[n] == AcquireAnswered(a)
    requires a < |states[n].attempts| && Landed(states[n], states[n].attempts[a].acquireCall)
    requires ReplyTo(states[n], states[n].attempts[a].acquireCall) == Acquired
    ensures var left := exists i :: 0 <= i < n && LeavesAt(actions, i, a);
      var (att, s') := (states[n].attempts[a], states[n + 1]);
      && a < |s'.attempts|
      && (s'.attempts[a].phase == Executing <==> !left)
      && (s'.attempts[a].phase == Abandoned <==> left)
      && (left ==> s'.calls == states[n].calls + [StoreCall(a, Release(att.request.storeKey, att.owner), states[n].clock, None)])
      && (!left ==> s'.calls == states[n].calls && s'.attempts[a].startedAt == states[n].clock && !s'.attempts[a].stopped)
  {
    assert StepAt(cfg, states, actions, n);
    ClosedMeansLeft(cfg, states, actions, n, a);
  }

  // Renewals.

  /** Why renewals may stop: their own refusal, the end of the record step, a shutdown of the process, or the ceiling. */
  predicate StopsRenewals(s: State, action: Action, att: Attempt, a: nat) {
    || (action == BeatAnswered(a) && att.pending.Some? && Landed(s, att.pending.value) && ReplyTo(s, att.pending.value) != Done(true))
    || action == RecordAnswered(a) || action == RecordFailed(a)
    || (action.Finish? && action.a == a)
    || action == Shutdown(att.process)
    || (action == Ceiling(a) && att.phase == Executing
        && att.startedAt + (if att.request.settings.maxLockHold < 0x7FFF_FFFF then att.request.settings.maxLockHold else 0x7FFF_FFFF)
           <= s.clock)
  }

  lemma OwnStop(cfg: Config, s: State, action: Action)
    requires Enabled(cfg, s, action) && IsAttemptAction(action)
    requires action.a < |s.attempts| == |Apply(cfg, s, action).attempts| && !s.attempts[action.a].stopped
    ensures Apply(cfg, s, action).attempts[action.a].stopped ==> StopsRenewals(s, action, s.attempts[action.a], action.a)
    ensures action.Finish? && Apply(cfg, s, action).attempts[action.a].stopped ==>
      action.outcome.Some? && Apply(cfg, s, action).attempts[action.a].phase == Recorded(false)
  {
  }

  /**
   * Renewals stop for no other reason: in every run, a step after which an
   * attempt renews no more, and before which it did, is a renewal of its own
   * that was refused, the end of its record step, a shutdown of its process,
   * or its ceiling, min(maxLockHold, 2 ** 31 - 1) after its handler started.
   * Ending the handler stops them only if sealing the outcome throws.
   */
  lemma RenewalsStopFor(cfg: Config, states: seq<State>, actions: seq<Action>, n: nat, a: nat)
    requires Run(cfg, states, actions) && n < |actions| && a < |states[n].attempts| && a < |states[n + 1].attempts|
    requires !states[n].attempts[a].stopped && states[n + 1].attempts[a].stopped
    ensures StopsRenewals(states[n], actions[n], states[n].attempts[a], a)
    ensures actions[n].Finish? ==> actions[n].outcome.Some? && states[n + 1].attempts[a].phase == Recorded(false)
  {
    assert StepAt(cfg, states, actions, n);
    var s, action := states[n], actions[n];
    if IsAttemptAction(action) {
      NewCallIsOwn(cfg, s, action);
      OwnStop(cfg, s, action);
    } else if action.Shutdown? || action.Crash? {
      ProcessWideEvolves(cfg, s, action);
    }
  }

  lemma {:induction false} StoppedStays(cfg: Config, states: seq<State>, actions: seq<Action>, i: nat, j: nat, a: nat)
    requires Run(cfg, states, actions) && i <= j < |states| && a < |states[i].attempts|
    requires Started(states[i].attempts[a]) && states[i].attempts[a].stopped
    ensures a < |states[j].attempts| && Started(states[j].attempts[a]) && states[j].attempts[a].stopped
    decreases j
  {
    if i < j {
      StoppedStays(cfg, states, actions, i, j - 1, a);
      FlagsAt(cfg, states, actions, j - 1, a);
    }
  }

  /** The action ends the renewals of the attempt: its ceiling, or a shutdown of its process. */
  predicate EndsRenewals(s: State, action: Action, a: nat)
    requires a < |s.attempts|
  {
    action == Ceiling(a) || action == Shutdown(s.attempts[a].process)
  }

  /**
   * After its ceiling, or a shutdown of its process, an attempt whose handler
   * was called never renews again: no beat of it is enabled in any later state.
   */
  lemma NoBeatAfterStop(cfg: Config, states: seq<State>, actions: seq<Action>, i: nat, j: nat, a: nat)
    requires Run(cfg, states, actions) && i < j < |states| && a < |states[i].attempts|
    requires Started(states[i].attempts[a]) && EndsRenewals(states[i], actions[i], a)
    ensures !Enabled(cfg, states[j], Beat(a))
    ensures j < |actions| ==> actions[j] != Beat(a)
  {
    assert StepAt(cfg, states, actions, i);
    FlagsAt(cfg, states, actions, i, a);
    if actions[i].Shutdown? {
      ProcessWideEvolves(cfg, states[i], actions[i]);
    }
    StoppedStays(cfg, states, actions, i + 1, j, a);
    if j < |actions| {
      assert StepAt(cfg, states, actions, j);
    }
  }

  /** The attempt has heard of its outstanding renewal, or given up on it. */
  predicate Heard(actions: seq<Action>, n: nat, a: nat)
    requires n < |actions|
  {
    actions[n] == BeatAnswered(a) || actions[n] == BeatFailed(a)
  }

  /**
   * What a renewal's answer does, in every run: a refusal ends the renewals,
   * and is reported as a lost lock exactly if the handler was still running
   * and nothing had ended them before. A confirmed renewal, and one given up
   * on, change nothing but that the next one may be made.
   */
  lemma RefusalStopsAndTells(cfg: Config, states: seq<State>, actions: seq<Action>, n: nat, a: nat)
    requires Run(cfg, states, actions) && n < |actions| && Heard(actions, n, a)
    ensures a < |states[n].attempts| == |states[n + 1].attempts|
    ensures var (s, att, att') := (states[n], states[n].attempts[a], states[n + 1].attempts[a]);
      var refused := && actions[n].BeatAnswered? && att.pending.Some? && Landed(s, att.pending.value)
                     && ReplyTo(s, att.pending.value) != Done(true);
      var tells := refused && !att.stopped && att.phase == Executing;
      && att.pending.Some? && att'.pending == None && att'.phase == att.phase && states[n + 1].calls == s.calls
      && att'.stopped == (att.stopped || refused)
      && att'.lostEvents == att.lostEvents + (if tells then [InExtend] else [])
      && (att'.lost == if tells then att.pending else att.lost)
  {
    assert StepAt(cfg, states, actions, n);
  }

  /**
   * What the end of the handler starts, in every run: an outcome that can be
   * stored is sealed under the record's key and stored for `ttl`, without one
   * the key is released, and renewals go on until the store has answered.
   */
  lemma OutcomeIsSettled(cfg: Config, states: seq<State>, actions: seq<Action>, n: nat)
    requires Run(cfg, states, actions) && n < |actions| && actions[n].Finish?
    ensures var (s, s', a, outcome) := (states[n], states[n + 1], actions[n].a, actions[n].outcome);
      && a < |s.attempts| == |s'.attempts|
      && var (att, att') := (s.attempts[a], s'.attempts[a]);
         var key := att.request.storeKey;
         var sealed := if outcome.Some? then cfg.codec.seal(key, outcome.value, actions[n].nonce) else None;
      && att'.outcome == outcome
      && (outcome.None? || sealed.Some? ==>
            && att' == att.(phase := Recording, outcome := outcome, settleCall := Some(|s.calls|))
            && s'.calls == s.calls + [StoreCall(a,
                 if outcome.None? then Release(key, att.owner) else Complete(key, att.owner, sealed.value, att.request.settings.ttl),
                 s.clock, None)])
      && (outcome.Some? && sealed.None? ==> att'.phase == Recorded(false) && att'.stopped && s'.calls == s.calls)
  {
    assert StepAt(cfg, states, actions, n);
  }

  /** The end of the record step is told as a lost lock exactly if it was not confirmed and no refused renewal told it before. */
  lemma RecordStepTells(cfg: Config, states: seq<State>, actions: seq<Action>, n: nat, a: nat)
    requires Run(cfg, states, actions) && n < |actions| && (actions[n] == RecordAnswered(a) || actions[n] == RecordFailed(a))
    ensures a < |states[n].attempts| == |states[n + 1].attempts| && states[n + 1].calls == states[n].calls
    ensures var (s, att, att') := (states[n], states[n].attempts[a], states[n + 1].attempts[a]);
      var confirmed := && actions[n].RecordAnswered? && att.settleCall.Some? && Landed(s, att.settleCall.value)
                       && ReplyTo(s, att.settleCall.value) == Done(true);
      && att'.phase == Recorded(confirmed) && att'.stopped
      && att'.lostEvents == att.lostEvents +
           if confirmed || att.lost.Some? then [] else if att.outcome.Some? then [InComplete] else [InRelease]
  {
    assert StepAt(cfg, states, actions, n);
  }

  lemma PendingStep(cfg: Config, s: State, action: Action, a: nat)
    requires Enabled(cfg, s, action) && a < |s.attempts| && s.attempts[a].pending.Some?
    requires action != BeatAnswered(a) && action != BeatFailed(a)
    ensures a < |Apply(cfg, s, action).attempts| && Apply(cfg, s, action).attempts[a].pending == s.attempts[a].pending
  {
    if IsAttemptAction(action) {
      NewCallIsOwn(cfg, s, action);
    } else if action.Shutdown? || action.Crash? {
      ProcessWideEvolves(cfg, s, action);
    }
  }

  lemma {:induction false} PendingUntilHeard(cfg: Config, states: seq<State>, actions: seq<Action>, i: nat, j: nat, a: nat)
    requires Run(cfg, states, actions) && i <= j < |states| && a < |states[i].attempts| && states[i].attempts[a].pending.Some?
    requires forall n :: i <= n < j ==> !Heard(actions, n, a)
    ensures a < |states[j].attempts| && states[j].attempts[a].pending == states[i].attempts[a].pending
    decreases j
  {
    if i < j {
      PendingUntilHeard(cfg, states, actions, i, j - 1, a);
      assert StepAt(cfg, states, actions, j - 1) && !Heard(actions, j - 1, a);
      PendingStep(cfg, states[j - 1], actions[j - 1], a);
    }
  }

  /** One renewal at a time: between two beats of an attempt, it heard of the first or gave up on it. */
  lemma OneRenewalAtATime(cfg: Config, states: seq<State>, actions: seq<Action>, i: nat, j: nat, a: nat)
    requires Run(cfg, states, actions) && i < j < |actions| && actions[i] == Beat(a) && actions[j] == Beat(a)
    ensures exists n :: i < n < j && Heard(actions, n, a)
  {
    assert StepAt(cfg, states, actions, i) && StepAt(cfg, states, actions, j);
    if forall n :: i < n < j ==> !Heard(actions, n, a) {
      PendingUntilHeard(cfg, states, actions, i + 1, j, a);
    }
  }

  // What can happen, and that every attempt can end.

  /**
   * Nobody is held back. Whatever has happened before: a caller may leave, a
   * process may stop or crash, time may pass, an outstanding call may land
   * with any readings since it was issued, the store may fail to answer, a
   * handler may end with any storable outcome or none, an answer may be heard
   * once it is there, a renewal may be made whenever none is outstanding and
   * nothing stopped them, and the ceiling strikes from the instant
   * startedAt + min(maxLockHold, 2 ** 31 - 1) on.
   */
  lemma NobodyIsHeldBack(cfg: Config, s: State, a: nat, c: nat, check: int, stamp: int, process: nat, ms: nat,
      outcome: Option<StoredResponse>, nonce: string)
    requires a < |s.attempts| && s.attempts[a].alive
    ensures Enabled(cfg, s, Tick(ms)) && Enabled(cfg, s, Shutdown(process)) && Enabled(cfg, s, Crash(process)) && Enabled(cfg, s, Leave(a))
    ensures c < |s.calls| && s.calls[c].landing.None? && s.calls[c].issuedAt <= check <= stamp ==> Enabled(cfg, s, Land(c, check, stamp))
    ensures var att := s.attempts[a];
      && (att.phase == Planning ==> Enabled(cfg, s, AcquireFailed(a)) && (Landed(s, att.acquireCall) ==> Enabled(cfg, s, AcquireAnswered(a))))
      && (att.phase == Executing && (outcome.Some? ==> Storable(outcome.value)) ==> Enabled(cfg, s, Finish(a, outcome, nonce)))
      && (att.phase == Recording ==>
            && Enabled(cfg, s, RecordFailed(a))
            && (att.settleCall.Some? && Landed(s, att.settleCall.value) ==> Enabled(cfg, s, RecordAnswered(a))))
      && (!att.stopped && att.pending.None? ==> Enabled(cfg, s, Beat(a)))
      && (att.pending.Some? ==>
            Enabled(cfg, s, BeatFailed(a)) && (Landed(s, att.pending.value) ==> Enabled(cfg, s, BeatAnswered(a))))
      && var maxLockHold := att.request.settings.maxLockHold;
         var ceiling := att.startedAt + if maxLockHold < 0x7FFF_FFFF then maxLockHold else 0x7FFF_FFFF;
         (att.phase == Executing && !att.stopped && ceiling <= s.clock ==> Enabled(cfg, s, Ceiling(a)))
  {
  }

  /** An attempt in one of these phases does nothing more of its own. */
  predicate IsOver(phase: Phase) {
    phase.Recorded? || phase.Refused? || phase.Replayed? || phase.Failed? || phase.Abandoned?
  }

  /** The state some actions lead to from `s`, each enabled where it is taken. */
  ghost predicate LeadsTo(cfg: Config, s: State, actions: seq<Action>, end: State)
    decreases |actions|
  {
    if actions == [] then end == s
    else Enabled(cfg, s, actions[0]) && LeadsTo(cfg, Apply(cfg, s, actions[0]), actions[1..], end)
  }

  /**
   * No attempt is ever stuck: from every state, at most two actions, none of
   * them the store's, bring a live attempt to its end, so that even a store
   * that never answers again cannot keep it.
   */
  lemma AlwaysEnds(cfg: Config, s: State, a: nat) returns (actions: seq<Action>, end: State)
    requires a < |s.attempts| && s.attempts[a].alive
    ensures |actions| <= 2 && LeadsTo(cfg, s, actions, end)
    ensures forall i :: 0 <= i < |actions| ==> !actions[i].Land? && !actions[i].Crash?
    ensures a < |end.attempts| && end.attempts[a].alive && IsOver(end.attempts[a].phase) && end.records == s.records
  {
    match s.attempts[a].phase {
      case Planning =>
        actions := [AcquireFailed(a)];
        end := Apply(cfg, s, actions[0]);
        assert LeadsTo(cfg, end, actions[1..], end);
      case Executing =>
        actions := [Finish(a, None, ""), RecordFailed(a)];
        var s1 := Apply(cfg, s, actions[0]);
        end := Apply(cfg, s1, actions[1]);
        assert actions[1..][1..] == [] && LeadsTo(cfg, s1, actions[1..], end);
      case Recording =>
        actions := [RecordFailed(a)];
        end := Apply(cfg, s, actions[0]);
        assert LeadsTo(cfg, end, actions[1..], end);
      case _ =>
        actions, end := [], s;
    }
  }
}
