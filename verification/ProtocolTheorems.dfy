/** What the protocol guarantees over whole runs, whatever the interleaving. */
module ProtocolTheorems {
  import opened Wrappers
  import opened StoreContract
  import opened StoreRuns
  import opened JsValues
  import opened Protocol
  import opened ProtocolInvariant

  /** Two attempts with one owner token are one attempt. */
  lemma SameOwnerSameAttempt(s: State, a: nat, b: nat)
    requires OwnersDiffer(s) && a < |s.attempts| && b < |s.attempts| && s.attempts[a].owner == s.attempts[b].owner
    ensures a == b
  {
  }

  /** A landing with an attempt's token is a landing of one of its calls. */
  lemma WhoseLanding(cfg: Config, s: State, l: nat) returns (a: nat)
    requires Inv(cfg, s) && l < |s.log|
    ensures s.log[l].call < |s.calls|
    ensures a == s.calls[s.log[l].call].attempt && a < |s.attempts|
    ensures s.log[l].op == s.calls[s.log[l].call].op
    ensures s.log[l].op.owner == s.attempts[a].owner && s.log[l].op.key == s.attempts[a].request.storeKey
    ensures AttemptOk(cfg, s, a) && CallOk(cfg, s, s.log[l].call)
    ensures s.calls[s.log[l].call].landing == Some(l)
    ensures s.calls[s.log[l].call].issuedAt <= s.log[l].check && s.log[l].Ended() <= s.clock
  {
    assert CallOk(cfg, s, s.log[l].call);
    a := s.calls[s.log[l].call].attempt;
  }

  /** Where an attempt's acquire landed. */
  function TakenAt(s: State, att: Attempt): nat
    requires Landed(s, att.acquireCall)
  {
    s.calls[att.acquireCall].landing.value
  }

  lemma AcquireLanding(cfg: Config, s: State, a: nat)
    requires Inv(cfg, s) && a < |s.attempts| && Landed(s, s.attempts[a].acquireCall)
    ensures AttemptOk(cfg, s, a)
    ensures var l := TakenAt(s, s.attempts[a]);
            s.log[l].call == s.attempts[a].acquireCall && s.log[l].op == AcquireOp(s.attempts[a])
  {
    assert AttemptOk(cfg, s, a);
    var l := TakenAt(s, s.attempts[a]);
    assert s.log[l].call == s.attempts[a].acquireCall;
    assert s.calls[s.log[l].call].op == s.log[l].op;
  }

  /** In every reachable state, at most one attempt holds a live lock on a store key. */
  lemma OneHolderPerKey(cfg: Config, s: State, a: nat, b: nat)
    requires Reachable(cfg, s) && a < |s.attempts| && b < |s.attempts|
    requires HoldsLock(s, s.attempts[a]) && HoldsLock(s, s.attempts[b])
    requires s.attempts[a].request.storeKey == s.attempts[b].request.storeKey
    ensures a == b
  {
    ReachableKeeps(cfg, s);
    SameOwnerSameAttempt(s, a, b);
  }

  /** What identifies an attempt, and where its acquire landed, never changes. */
  ghost predicate SameAttempt(s: State, s': State, a: nat)
    requires a < |s.attempts|
  {
    && a < |s'.attempts|
    && s'.attempts[a].request == s.attempts[a].request
    && s'.attempts[a].owner == s.attempts[a].owner
    && s'.attempts[a].acquireCall == s.attempts[a].acquireCall
  }

  lemma ClientActionFrame(cfg: Config, s: State, action: Action, s': State, a: nat)
    requires Inv(cfg, s) && Enabled(cfg, s, action) && !action.Land? && s' == Apply(cfg, s, action)
    requires a < |s.attempts| && s.attempts[a].acquireCall < |s.calls|
    ensures SameAttempt(s, s', a) && s'.records == s.records && s'.log == s.log && s.clock <= s'.clock
    ensures s.attempts[a].acquireCall < |s'.calls|
            && s'.calls[s.attempts[a].acquireCall] == s.calls[s.attempts[a].acquireCall]
  {
    if IsAttemptAction(action) {
      AttemptActionKeeps(cfg, s, action);
    } else if action.Shutdown? || action.Crash? {
      ProcessWideEvolves(cfg, s, action);
    }
  }

  /** The attempt once took the lock, and the key's entry is no longer its lock, not even an expired one. */
  ghost predicate Gone(s: State, a: nat) {
    a < |s.attempts| && Won(s, s.attempts[a]) && !Mine(s.records, s.attempts[a].request.storeKey, s.attempts[a].owner)
  }

  predicate LandsFor(s: State, action: Action, a: nat) {
    action.Land? && action.c < |s.calls| && s.calls[action.c].attempt == a
  }

  /** A landing of an attempt that has won already is no acquire. */
  lemma WonLandings(cfg: Config, s: State, c: nat, check: int, stamp: int, a: nat)
    requires Inv(cfg, s) && Enabled(cfg, s, Land(c, check, stamp)) && a < |s.attempts| && Won(s, s.attempts[a])
    ensures s.calls[c].op.owner == s.attempts[a].owner <==> s.calls[c].attempt == a
    ensures s.calls[c].attempt == a ==> !s.calls[c].op.Acquire? && s.calls[c].op.key == s.attempts[a].request.storeKey
    ensures Won(Apply(cfg, s, Land(c, check, stamp)), s.attempts[a])
  {
    assert CallOk(cfg, s, c) && AttemptOk(cfg, s, a);
    if s.calls[c].op.owner == s.attempts[a].owner {
      SameOwnerSameAttempt(s, s.calls[c].attempt, a);
    }
  }

  /** One step cannot give back a lock that is gone, and a landing of the attempt that had it changes nothing. */
  lemma GoneAcrossOneStep(cfg: Config, s: State, action: Action, s': State, a: nat)
    requires Inv(cfg, s) && Enabled(cfg, s, action) && s' == Apply(cfg, s, action) && Gone(s, a)
    ensures Gone(s', a)
    ensures LandsFor(s, action, a) ==> s'.records == s.records
  {
    var att := s.attempts[a];
    assert AttemptOk(cfg, s, a);
    if action.Land? {
      WonLandings(cfg, s, action.c, action.check, action.stamp, a);
      GoneAcrossOneCall(s.records, s.calls[action.c].op, att.request.storeKey, att.owner, action.check, action.stamp);
    } else {
      ClientActionFrame(cfg, s, action, s', a);
    }
  }

  /** In the steps from `i` to `j`, no landing of the attempt's calls changed any record or lock. */
  ghost predicate ChangesNothing(states: seq<State>, actions: seq<Action>, i: nat, j: nat, a: nat)
    requires |states| == |actions| + 1 && j < |states|
  {
    forall n {:trigger actions[n]} :: i <= n < j && LandsFor(states[n], actions[n], a) ==> states[n + 1].records == states[n].records
  }

  /**
   * Fencing: once an attempt's lock was taken over, completed or released, it
   * never has it again, and none of its calls changes any record or lock,
   * however late they land and however old their clock readings are.
   */
  lemma {:induction false} GoneLockStaysHarmless(cfg: Config, states: seq<State>, actions: seq<Action>, i: nat, j: nat, a: nat)
    requires Run(cfg, states, actions) && i <= j < |states| && Gone(states[i], a)
    ensures Gone(states[j], a) && ChangesNothing(states, actions, i, j, a)
    decreases j
  {
    if i < j {
      GoneLockStaysHarmless(cfg, states, actions, i, j - 1, a);
      GoneAcrossStepAt(cfg, states, actions, j - 1, a);
    }
  }

  lemma GoneAcrossStepAt(cfg: Config, states: seq<State>, actions: seq<Action>, n: nat, a: nat)
    requires Run(cfg, states, actions) && n < |actions| && Gone(states[n], a)
    ensures Gone(states[n + 1], a)
    ensures LandsFor(states[n], actions[n], a) ==> states[n + 1].records == states[n].records
  {
    RunKeeps(cfg, states, actions, n);
    assert StepAt(cfg, states, actions, n);
    GoneAcrossOneStep(cfg, states[n], actions[n], states[n + 1], a);
  }

  /** Every attempt that started took the lock, at an instant when its key had no live lock and no live record. */
  lemma StartedMeansAcquired(cfg: Config, s: State, a: nat)
    requires Reachable(cfg, s) && a < |s.attempts| && Started(s.attempts[a])
    ensures Won(s, s.attempts[a])
    ensures var l := TakenAt(s, s.attempts[a]);
            !Live(After(s.log[..l]), s.attempts[a].request.storeKey, s.log[l].check)
  {
    ReachableKeeps(cfg, s);
    assert AttemptOk(cfg, s, a);
    AcquireLanding(cfg, s, a);
    var l := TakenAt(s, s.attempts[a]);
    ReplyAt(s.log, l);
    Fencing(After(s.log[..l]), s.log[l].op, s.log[l].check, s.log[l].stamp);
  }

  /**
   * Between the landings of two acquires, `e` is the earlier attempt's last
   * word on the key, and `m` the next acquire to take it, the later attempt's
   * or one before. `e` was a release, or had expired for the clock reading of
   * `m`: a lock by its lockTtl, unrenewed, a completed record by its ttl.
   */
  ghost predicate EpochEnds(s: State, a: nat, b: nat, e: nat, m: nat)
    requires a < |s.attempts| && b < |s.attempts| && Won(s, s.attempts[a]) && Won(s, s.attempts[b])
  {
    var j := TakenAt(s, s.attempts[b]);
    && TakenAt(s, s.attempts[a]) <= e < m <= j
    && Wins(s.log[e]) && s.log[e].call < |s.calls| && s.calls[s.log[e].call].attempt == a
    && (forall n :: e < n < j && s.log[n].call < |s.calls| && s.calls[s.log[n].call].attempt == a ==> !Wins(s.log[n]))
    && s.log[m].reply == Acquired && s.log[m].op.key == s.attempts[a].request.storeKey
    && (s.log[e].op.Release? || (ExpiryOf(s.log[e]) <= s.log[m].check && s.log[m].check <= s.log[j].Ended()))
  }

  lemma LaterAcquireEndsEpoch(cfg: Config, s: State, a: nat, b: nat) returns (e: nat, m: nat)
    requires Inv(cfg, s) && a < |s.attempts| && b < |s.attempts|
    requires s.attempts[a].request.storeKey == s.attempts[b].request.storeKey
    requires Won(s, s.attempts[a]) && Won(s, s.attempts[b])
    requires TakenAt(s, s.attempts[a]) < TakenAt(s, s.attempts[b])
    ensures EpochEnds(s, a, b, e, m)
  {
    var i, j := TakenAt(s, s.attempts[a]), TakenAt(s, s.attempts[b]);
    AcquireLanding(cfg, s, a);
    AcquireLanding(cfg, s, b);
    if s.attempts[a].owner == s.attempts[b].owner {
      SameOwnerSameAttempt(s, a, b);
    }
    e, m := OneEpochAtATime(s.log, i, j);
    var who := WhoseLanding(cfg, s, e);
    SameOwnerSameAttempt(s, who, a);
    forall n | e < n < j && s.log[n].call < |s.calls| && s.calls[s.log[n].call].attempt == a
      ensures !Wins(s.log[n])
    {
      var who := WhoseLanding(cfg, s, n);
    }
  }

  /** At most one execution per epoch: two attempts that both ran their handler under one store key did so in two epochs. */
  lemma OneExecutionPerEpoch(cfg: Config, s: State, a: nat, b: nat) returns (e: nat, m: nat)
    requires Reachable(cfg, s) && a < |s.attempts| && b < |s.attempts| && a != b
    requires Started(s.attempts[a]) && Started(s.attempts[b])
    requires s.attempts[a].request.storeKey == s.attempts[b].request.storeKey
    ensures Won(s, s.attempts[a]) && Won(s, s.attempts[b])
    ensures if TakenAt(s, s.attempts[a]) < TakenAt(s, s.attempts[b]) then EpochEnds(s, a, b, e, m) else EpochEnds(s, b, a, e, m)
  {
    StartedMeansAcquired(cfg, s, a);
    StartedMeansAcquired(cfg, s, b);
    ReachableKeeps(cfg, s);
    AcquireLanding(cfg, s, a);
    AcquireLanding(cfg, s, b);
    if TakenAt(s, s.attempts[a]) < TakenAt(s, s.attempts[b]) {
      e, m := LaterAcquireEndsEpoch(cfg, s, a, b);
    } else {
      e, m := LaterAcquireEndsEpoch(cfg, s, b, a);
    }
  }

  /** What was sealed under a key opens under it, for every response a store can keep. */
  ghost predicate CodecRoundTrips(codec: Codec) {
    forall key, response, nonce :: Storable(response) && Sealing(codec, key, response, nonce).Some? ==>
      codec.open(key, Sealing(codec, key, response, nonce).value) == Some(response)
  }

  /**
   * Attempt `b` found the record that attempt `a` stored at landing `m`: under
   * `b`'s store key and fingerprint, while `a` held the live lock, less than
   * `a`'s ttl before `b` asked, with no change to the key in between.
   */
  ghost predicate StoredBy(s: State, b: nat, a: nat, m: nat)
    requires b < |s.attempts| && Landed(s, s.attempts[b].acquireCall)
  {
    var j := TakenAt(s, s.attempts[b]);
    && a < |s.attempts| && Started(s.attempts[a])
    && s.attempts[a].request.storeKey == s.attempts[b].request.storeKey
    && s.attempts[a].request.fingerprint == s.attempts[b].request.fingerprint
    && m < j && s.log[m].call < |s.calls| && s.calls[s.log[m].call].attempt == a
    && s.log[m].op.Complete? && s.log[m].reply == Done(true)
    && Holds(After(s.log[..m]), s.attempts[a].request.storeKey, s.attempts[a].owner, s.log[m].check)
    && s.log[m].Ended() <= s.log[j].began && s.log[j].check < s.log[m].stamp + s.attempts[a].request.settings.ttl
    && forall n :: m < n < j ==> !WinsOn(s.log[n], s.attempts[b].request.storeKey)
  }

  /**
   * Replay provenance: a replay returns the outcome one earlier attempt
   * captured and stored, under the same store key and fingerprint, while it
   * held the live lock, less than its ttl ago.
   */
  lemma ReplayProvenance(cfg: Config, s: State, b: nat) returns (a: nat, m: nat)
    requires Reachable(cfg, s) && CodecRoundTrips(cfg.codec)
    requires b < |s.attempts| && s.attempts[b].phase.Replayed?
    ensures Landed(s, s.attempts[b].acquireCall) && StoredBy(s, b, a, m)
    ensures s.attempts[a].outcome == Some(s.attempts[b].phase.response)
  {
    ReachableKeeps(cfg, s);
    assert AttemptOk(cfg, s, b);
    AcquireLanding(cfg, s, b);
    var j := TakenAt(s, s.attempts[b]);
    var q;
    q, m := RecordProvenance(s.log, j);
    a := WhoseLanding(cfg, s, m);
    var taker := WhoseLanding(cfg, s, q);
    SameOwnerSameAttempt(s, a, taker);
    assert s.log[q].op == AcquireOp(s.attempts[a]);
    assert SettleOp(cfg, s.attempts[a], s.log[m].op);
  }

  /**
   * What `acquire` answered decides what the attempt does, in every run: it
   * runs only if it took the lock, and a live entry it found is replayed or
   * refused for exactly one reason, also when the record cannot be read.
   */
  lemma AnswerDecides(cfg: Config, s: State, b: nat)
    requires Reachable(cfg, s) && b < |s.attempts| && Landed(s, s.attempts[b].acquireCall)
    requires !s.attempts[b].phase.Planning? && !s.attempts[b].phase.Failed?
    ensures var (att, reply) := (s.attempts[b], ReplyTo(s, s.attempts[b].acquireCall));
      && (Started(att) || att.phase.Abandoned? <==> reply == Acquired)
      && (att.phase.Abandoned? ==> att.closed)
      && (reply != Acquired ==> FoundEntry(reply))
      && (att.phase == Refused(KeyReused) <==> FoundEntry(reply) && reply.fingerprint != att.request.fingerprint)
      && (att.phase == Refused(KeyInUse) <==> reply.FoundInFlight? && reply.fingerprint == att.request.fingerprint)
      && (att.phase == Refused(RecordUnreadable) <==>
            && reply.FoundCompleted? && reply.fingerprint == att.request.fingerprint
            && cfg.codec.open(att.request.storeKey, reply.response) == None)
      && (forall r :: att.phase == Replayed(r) <==>
            && reply.FoundCompleted? && reply.fingerprint == att.request.fingerprint
            && cfg.codec.open(att.request.storeKey, reply.response) == Some(r))
  {
    ReachableKeeps(cfg, s);
    assert AttemptOk(cfg, s, b);
    var att, reply := s.attempts[b], ReplyTo(s, s.attempts[b].acquireCall);
    assert Started(att) || att.phase.Abandoned? || att.phase.Refused? || att.phase.Replayed?;
    if att.phase.Replayed? {
      assert cfg.codec.open(att.request.storeKey, reply.response) == Some(att.phase.response);
    }
  }

  /** The attempt that took the lock behind a live entry some acquire found. */
  lemma WhoseEntry(cfg: Config, s: State, b: nat) returns (a: nat)
    requires Reachable(cfg, s) && b < |s.attempts| && Landed(s, s.attempts[b].acquireCall)
    requires FoundEntry(ReplyTo(s, s.attempts[b].acquireCall))
    ensures a < |s.attempts| && Won(s, s.attempts[a])
    ensures s.attempts[a].request.storeKey == s.attempts[b].request.storeKey
    ensures s.attempts[a].request.fingerprint == ReplyTo(s, s.attempts[b].acquireCall).fingerprint
  {
    ReachableKeeps(cfg, s);
    AcquireLanding(cfg, s, b);
    var j := TakenAt(s, s.attempts[b]);
    var q, m;
    if s.log[j].reply.FoundCompleted? {
      q, m := RecordProvenance(s.log, j);
    } else {
      q, m := LockProvenance(s.log, j);
    }
    a := WhoseLanding(cfg, s, q);
    assert s.log[q].op == AcquireOp(s.attempts[a]);
    assert s.log[q].call == s.attempts[a].acquireCall;
  }

  /** A refusal with 422 or 500, or a 409, never comes with an execution: the attempt found a live entry and stopped there. */
  lemma RefusedFoundLiveEntry(cfg: Config, s: State, a: nat)
    requires Reachable(cfg, s) && a < |s.attempts| && (s.attempts[a].phase.Refused? || s.attempts[a].phase.Replayed?)
    ensures Landed(s, s.attempts[a].acquireCall)
    ensures var l := TakenAt(s, s.attempts[a]);
            Live(After(s.log[..l]), s.attempts[a].request.storeKey, s.log[l].check)
    ensures s.attempts[a].settleCall.None?
  {
    ReachableKeeps(cfg, s);
    assert AttemptOk(cfg, s, a);
    AcquireLanding(cfg, s, a);
    var l := TakenAt(s, s.attempts[a]);
    ReplyAt(s.log, l);
    Fencing(After(s.log[..l]), s.log[l].op, s.log[l].check, s.log[l].stamp);
  }

  /**
   * Lock-lost accounting: at most one event per attempt. Once the record step
   * settled, exactly one if the store did not confirm it; if the store did,
   * none but the one a refused renewal may have told before.
   */
  lemma LockLostToldOnce(cfg: Config, s: State, a: nat)
    requires Reachable(cfg, s) && a < |s.attempts|
    ensures var att := s.attempts[a];
      && |att.lostEvents| <= 1
      && (att.lost.Some? ==> att.lostEvents == [InExtend] && RefusedFirst(s, a, att.lost.value))
      && (att.phase.Recorded? && !att.phase.confirmed ==> |att.lostEvents| == 1)
      && (att.phase.Recorded? && att.phase.confirmed ==>
            && att.settleCall.Some? && Landed(s, att.settleCall.value) && ReplyTo(s, att.settleCall.value) == Done(true)
            && (att.lostEvents == [] <==> att.lost.None?))
  {
    ReachableKeeps(cfg, s);
    assert AttemptOk(cfg, s, a);
  }

  predicate IsSettle(op: Op<Payload>) { op.Complete? || op.Release? }

  /**
   * No leaked lock: an attempt whose acquire may have taken the lock, and
   * whose handler is not still running, has made exactly one `complete` or
   * `release`, with its own token, unless sealing its outcome threw; one that
   * replays, is refused or still runs has made none.
   */
  lemma NoLeakedLock(cfg: Config, s: State, a: nat)
    requires Reachable(cfg, s) && a < |s.attempts|
    ensures var att := s.attempts[a];
      var mine := set c | 0 <= c < |s.calls| && s.calls[c].attempt == a && IsSettle(s.calls[c].op);
      match att.phase
      case Planning => mine == {}
      case Executing => mine == {}
      case Refused(_) => mine == {}
      case Replayed(_) => mine == {}
      case _ =>
        if att.settleCall.None? then
          mine == {} && att.phase == Recorded(false) && Unsealable(cfg.codec, att.request.storeKey, att.outcome)
        else
          && mine == {att.settleCall.value} && att.settleCall.value < |s.calls|
          && var op := s.calls[att.settleCall.value].op;
             && op.owner == att.owner && op.key == att.request.storeKey
             && (op.Complete? <==> (att.phase.Recording? || att.phase.Recorded?) && att.outcome.Some?)
  {
    ReachableKeeps(cfg, s);
    assert AttemptOk(cfg, s, a);
    forall c | 0 <= c < |s.calls| && s.calls[c].attempt == a && IsSettle(s.calls[c].op)
      ensures s.attempts[a].settleCall == Some(c)
    {
      assert CallOk(cfg, s, c);
    }
    var mine := set c | 0 <= c < |s.calls| && s.calls[c].attempt == a && IsSettle(s.calls[c].op);
    if s.attempts[a].settleCall.Some? {
      assert s.attempts[a].settleCall.value in mine;
    }
  }
}
