/** What every step of the protocol keeps, proved action by action. */
module ProtocolInvariant {
  import opened Wrappers
  import opened StoreContract
  import opened StoreRuns
  import opened JsValues
  import opened Protocol

  /** The handler was called. */
  predicate Started(att: Attempt) {
    att.phase.Executing? || att.phase.Recording? || att.phase.Recorded?
  }

  /** The attempt's `acquire` landed and took the lock. */
  predicate Won(s: State, att: Attempt) {
    Landed(s, att.acquireCall) && ReplyTo(s, att.acquireCall) == Acquired
  }

  predicate HoldsLock(s: State, att: Attempt) {
    Holds(s.records, att.request.storeKey, att.owner, s.clock)
  }

  function AcquireOp(att: Attempt): Op<Payload> {
    Acquire(att.request.storeKey, att.owner, att.request.fingerprint, att.request.settings.lockTtl)
  }

  function ExtendOp(att: Attempt): Op<Payload> {
    Extend(att.request.storeKey, att.owner, att.request.settings.lockTtl)
  }

  function Sealing(codec: Codec, storeKey: string, response: StoredResponse, nonce: string): Option<Payload> {
    codec.seal(storeKey, response, nonce)
  }

  /** Sealing the outcome can throw. */
  ghost predicate Unsealable(codec: Codec, storeKey: string, outcome: Option<StoredResponse>) {
    outcome.Some? && exists nonce :: Sealing(codec, storeKey, outcome.value, nonce).None?
  }

  /** The call stores the outcome, sealed under some nonce. */
  ghost predicate StoresSealed(codec: Codec, request: Request, owner: string, response: StoredResponse, op: Op<Payload>) {
    exists nonce :: Sealing(codec, request.storeKey, response, nonce).Some? &&
      op == Complete(request.storeKey, owner, Sealing(codec, request.storeKey, response, nonce).value, request.settings.ttl)
  }

  /** The call that ends the attempt: a `complete` with its sealed outcome, or a `release`. */
  ghost predicate SettleOp(cfg: Config, att: Attempt, op: Op<Payload>) {
    if (att.phase.Recording? || att.phase.Recorded?) && att.outcome.Some? then
      StoresSealed(cfg.codec, att.request, att.owner, att.outcome.value, op)
    else
      op == Release(att.request.storeKey, att.owner)
  }

  /** Calls, landings and attempts refer to each other consistently. */
  ghost predicate Indexed(s: State) {
    && (forall c :: 0 <= c < |s.calls| ==>
          && s.calls[c].attempt < |s.attempts|
          && s.calls[c].issuedAt <= s.clock
          && (s.calls[c].landing.Some? ==> s.calls[c].landing.value < |s.log| && s.log[s.calls[c].landing.value].call == c))
    && (forall l :: 0 <= l < |s.log| ==>
          && s.log[l].call < |s.calls|
          && s.calls[s.log[l].call].landing == Some(l)
          && s.calls[s.log[l].call].op == s.log[l].op
          && s.calls[s.log[l].call].issuedAt <= s.log[l].check && s.log[l].Ended() <= s.clock)
  }

  /** The store is what its history of landings says. */
  ghost predicate StoreOk(s: State) {
    IsRun(s.log) && s.records == After(s.log)
  }

  ghost predicate OwnersDiffer(s: State) {
    forall a, b :: 0 <= a < b < |s.attempts| ==> s.attempts[a].owner != s.attempts[b].owner
  }

  /** What is true of a call, given the attempt that made it. */
  ghost predicate CallOk(cfg: Config, s: State, c: nat)
    requires c < |s.calls| && s.calls[c].attempt < |s.attempts|
  {
    var call, att := s.calls[c], s.attempts[s.calls[c].attempt];
    && call.op.owner == att.owner && call.op.key == att.request.storeKey
    && (call.op.Acquire? ==> c == att.acquireCall)
    && (call.op.Complete? || call.op.Release? ==> att.settleCall == Some(c))
    && (call.op.Extend? ==> call.op == ExtendOp(att) && Started(att) && att.startedAt <= call.issuedAt)
    && (Started(att) && !call.op.Acquire? ==>
          Won(s, att) && (Landed(s, c) ==> s.calls[att.acquireCall].landing.value < call.landing.value))
  }

  ghost predicate CallsOk(cfg: Config, s: State) {
    forall c :: 0 <= c < |s.calls| ==> s.calls[c].attempt < |s.attempts| && CallOk(cfg, s, c)
  }

  ghost predicate OwnCalls(cfg: Config, s: State, a: nat)
    requires a < |s.attempts|
  {
    var att := s.attempts[a];
    && att.acquireCall < |s.calls|
    && s.calls[att.acquireCall].attempt == a && s.calls[att.acquireCall].op == AcquireOp(att)
    && (att.settleCall.Some? ==>
          && att.settleCall.value < |s.calls|
          && s.calls[att.settleCall.value].attempt == a
          && SettleOp(cfg, att, s.calls[att.settleCall.value].op))
    && (att.pending.Some? ==>
          att.pending.value < |s.calls| && s.calls[att.pending.value].attempt == a && s.calls[att.pending.value].op.Extend?)
  }

  predicate FoundEntry(reply: Reply<Payload>) { reply.FoundInFlight? || reply.FoundCompleted? }

  /** Why a live entry that was found turns a request away. */
  function RefusalFor(request: Request, reply: Reply<Payload>): Refusal
    requires FoundEntry(reply)
  {
    if reply.fingerprint != request.fingerprint then KeyReused
    else if reply.FoundInFlight? then KeyInUse
    else RecordUnreadable
  }

  ghost predicate PhaseOk(cfg: Config, s: State, a: nat)
    requires a < |s.attempts|
  {
    var att := s.attempts[a];
    && (!att.stopped ==> att.phase.Executing? || att.phase.Recording?)
    && (att.phase.Recording? || att.phase.Failed? || att.phase.Abandoned? ==> att.settleCall.Some?)
    && (att.settleCall.Some? ==> att.phase.Recording? || att.phase.Recorded? || att.phase.Failed? || att.phase.Abandoned?)
    && (att.phase.Recorded? && att.settleCall.None? ==> !att.phase.confirmed && Unsealable(cfg.codec, att.request.storeKey, att.outcome))
    && (att.outcome.Some? ==> Storable(att.outcome.value))
    && (Started(att) || att.phase.Abandoned? ==> Won(s, att))
    && (att.phase.Abandoned? ==> att.closed)
    && (att.phase.Refused? || att.phase.Replayed? ==> Landed(s, att.acquireCall) && FoundEntry(ReplyTo(s, att.acquireCall)))
    && (att.phase.Refused? ==> att.phase.why == RefusalFor(att.request, ReplyTo(s, att.acquireCall)))
    && (att.phase == Refused(RecordUnreadable) ==>
          cfg.codec.open(att.request.storeKey, ReplyTo(s, att.acquireCall).response) == None)
    && (att.phase.Replayed? ==>
          var reply := ReplyTo(s, att.acquireCall);
          && reply.FoundCompleted? && reply.fingerprint == att.request.fingerprint
          && cfg.codec.open(att.request.storeKey, reply.response) == Some(att.phase.response))
    && (att.phase.Recorded? && att.phase.confirmed ==>
          att.settleCall.Some? && Landed(s, att.settleCall.value) && ReplyTo(s, att.settleCall.value) == Done(true))
  }

  /** The renewal `c` of the attempt was refused, before the call that settles the attempt landed. */
  ghost predicate RefusedFirst(s: State, a: nat, c: nat)
    requires a < |s.attempts|
  {
    var settle := s.attempts[a].settleCall;
    && Landed(s, c) && s.calls[c].attempt == a && s.calls[c].op.Extend? && ReplyTo(s, c) != Done(true)
    && (settle.Some? && Landed(s, settle.value) ==> s.calls[c].landing.value < s.calls[settle.value].landing.value)
  }

  ghost predicate LostOk(s: State, a: nat)
    requires a < |s.attempts|
  {
    var att := s.attempts[a];
    && (att.lost.Some? ==> att.stopped && Started(att) && Won(s, att) && RefusedFirst(s, a, att.lost.value))
    && var told := if att.lost.Some? then [InExtend] else [];
       match att.phase
       case Executing => att.lostEvents == told
       case Recording => att.lostEvents == told
       case Recorded(confirmed) =>
         att.lostEvents ==
           if confirmed || att.lost.Some? then told else [if att.outcome.Some? then InComplete else InRelease]
       case _ => att.lostEvents == []
  }

  ghost predicate TimesOk(s: State, a: nat)
    requires a < |s.attempts|
  {
    var att := s.attempts[a];
    Started(att) ==>
      att.startedAt <= s.clock && (Won(s, att) ==> s.log[s.calls[att.acquireCall].landing.value].Ended() <= att.startedAt)
  }

  ghost predicate AttemptOk(cfg: Config, s: State, a: nat)
    requires a < |s.attempts|
  {
    OwnCalls(cfg, s, a) && PhaseOk(cfg, s, a) && LostOk(s, a) && TimesOk(s, a)
  }

  ghost predicate AttemptsOk(cfg: Config, s: State) {
    forall a :: 0 <= a < |s.attempts| ==> AttemptOk(cfg, s, a)
  }

  ghost predicate Inv(cfg: Config, s: State) {
    Indexed(s) && StoreOk(s) && OwnersDiffer(s) && CallsOk(cfg, s) && AttemptsOk(cfg, s)
  }

  /** How a client-side step may change an attempt. */
  ghost predicate Evolves(att: Attempt, att': Attempt) {
    && att'.request == att.request && att'.owner == att.owner && att'.acquireCall == att.acquireCall
    && (Started(att) ==> Started(att') && att'.startedAt == att.startedAt)
    && (att.settleCall.Some? ==> att'.settleCall == att.settleCall && (Started(att') ==> Started(att)))
  }

  /** The calls of `s` are still there, and at most one new one, still to land, follows them. */
  ghost predicate CallsGrow(s: State, s': State) {
    && |s.calls| <= |s'.calls| <= |s.calls| + 1
    && (forall c :: 0 <= c < |s.calls| ==> s'.calls[c] == s.calls[c])
    && (|s.calls| < |s'.calls| ==>
          var call := s'.calls[|s.calls|];
          call.attempt < |s'.attempts| && call.landing.None? && call.issuedAt == s.clock)
  }

  /** The store and the clock stand still. */
  ghost predicate StoreStill(s: State, s': State) {
    s'.clock == s.clock && s'.records == s.records && s'.log == s.log
  }

  ghost predicate AllEvolve(s: State, s': State) {
    && |s.attempts| <= |s'.attempts|
    && forall a :: 0 <= a < |s.attempts| ==> Evolves(s.attempts[a], s'.attempts[a])
  }

  lemma CallOnlySeesItsAttempt(cfg: Config, s: State, s': State, c: nat)
    requires StoreStill(s, s') && c < |s.calls| <= |s'.calls| && s'.calls[c] == s.calls[c]
    requires s.calls[c].attempt < |s.attempts| <= |s'.attempts|
    requires var att, att' := s.attempts[s.calls[c].attempt], s'.attempts[s.calls[c].attempt];
             Evolves(att, att') && att.acquireCall < |s.calls| && s'.calls[att.acquireCall] == s.calls[att.acquireCall]
    requires CallOk(cfg, s, c)
    ensures CallOk(cfg, s', c)
  {
    assert s.calls[c].op.Acquire? || s.calls[c].op.Extend? || s.calls[c].op.Complete? || s.calls[c].op.Release?;
  }

  lemma IndexedStays(s: State, s': State)
    requires Indexed(s) && StoreStill(s, s') && CallsGrow(s, s') && |s.attempts| <= |s'.attempts|
    ensures Indexed(s')
  {
  }

  lemma ClientStepKeepsCalls(cfg: Config, s: State, s': State)
    requires Indexed(s) && CallsOk(cfg, s) && StoreStill(s, s') && CallsGrow(s, s') && AllEvolve(s, s')
    requires forall a :: 0 <= a < |s.attempts| ==> s.attempts[a].acquireCall < |s.calls|
    requires |s.calls| < |s'.calls| ==> CallOk(cfg, s', |s.calls|)
    ensures CallsOk(cfg, s')
  {
    forall c | 0 <= c < |s'.calls|
      ensures s'.calls[c].attempt < |s'.attempts| && CallOk(cfg, s', c)
    {
      if c < |s.calls| {
        CallOnlySeesItsAttempt(cfg, s, s', c);
      }
    }
  }

  /** An attempt a client-side step does not touch keeps everything that was true of it. */
  lemma Untouched(cfg: Config, s: State, s': State, a: nat)
    requires StoreStill(s, s') && CallsGrow(s, s')
    requires a < |s.attempts| <= |s'.attempts| && s'.attempts[a] == s.attempts[a] && AttemptOk(cfg, s, a)
    ensures AttemptOk(cfg, s', a)
  {
  }

  /** A client-side step of one attempt: the attempt stays in order, and so does the call it issues, if any. */
  ghost predicate StepsAlone(cfg: Config, s: State, s': State, a: nat) {
    && StoreStill(s, s') && CallsGrow(s, s')
    && a < |s.attempts| == |s'.attempts| && s'.attempts == s.attempts[a := s'.attempts[a]]
    && Evolves(s.attempts[a], s'.attempts[a])
    && AttemptOk(cfg, s', a)
    && (|s.calls| < |s'.calls| ==> CallOk(cfg, s', |s.calls|))
  }

  lemma AcquireCallsExist(cfg: Config, s: State)
    requires AttemptsOk(cfg, s)
    ensures forall a :: 0 <= a < |s.attempts| ==> s.attempts[a].acquireCall < |s.calls|
  {
    forall a | 0 <= a < |s.attempts|
      ensures s.attempts[a].acquireCall < |s.calls|
    {
      assert AttemptOk(cfg, s, a);
    }
  }

  lemma OneAttemptSteps(cfg: Config, s: State, s': State, a: nat)
    requires Inv(cfg, s) && StepsAlone(cfg, s, s', a)
    ensures Inv(cfg, s')
  {
    AcquireCallsExist(cfg, s);
    StepsAloneEvolve(cfg, s, s', a);
    IndexedStays(s, s');
    ClientStepKeepsCalls(cfg, s, s');
    OthersUntouched(cfg, s, s', a);
  }

  lemma StepsAloneEvolve(cfg: Config, s: State, s': State, a: nat)
    requires StepsAlone(cfg, s, s', a) && OwnersDiffer(s)
    ensures AllEvolve(s, s') && OwnersDiffer(s')
  {
  }

  lemma OthersUntouched(cfg: Config, s: State, s': State, a: nat)
    requires AttemptsOk(cfg, s) && StepsAlone(cfg, s, s', a)
    ensures AttemptsOk(cfg, s')
  {
    forall b | 0 <= b < |s'.attempts|
      ensures AttemptOk(cfg, s', b)
    {
      if b != a {
        Untouched(cfg, s, s', b);
      }
    }
  }

  lemma NewAttemptIsInOrder(cfg: Config, s: State, process: nat, request: Request, owner: string)
    requires Enabled(cfg, s, Begin(process, request, owner))
    ensures var s' := Apply(cfg, s, Begin(process, request, owner));
            AttemptOk(cfg, s', |s.attempts|) && CallOk(cfg, s', |s.calls|) && CallsGrow(s, s') && AllEvolve(s, s')
  {
  }

  lemma BeginKeeps(cfg: Config, s: State, process: nat, request: Request, owner: string)
    requires Inv(cfg, s) && Enabled(cfg, s, Begin(process, request, owner))
    ensures Inv(cfg, Apply(cfg, s, Begin(process, request, owner)))
  {
    var s' := Apply(cfg, s, Begin(process, request, owner));
    NewAttemptIsInOrder(cfg, s, process, request, owner);
    AcquireCallsExist(cfg, s);
    IndexedStays(s, s');
    ClientStepKeepsCalls(cfg, s, s');
    forall a | 0 <= a < |s'.attempts|
      ensures AttemptOk(cfg, s', a)
    {
      if a < |s.attempts| {
        Untouched(cfg, s, s', a);
      }
    }
  }

  lemma AcquiredSteps(cfg: Config, s: State, a: nat)
    requires Enabled(cfg, s, AcquireAnswered(a)) && AttemptOk(cfg, s, a) && Indexed(s)
    requires ReplyTo(s, s.attempts[a].acquireCall) == Acquired
    ensures StepsAlone(cfg, s, Apply(cfg, s, AcquireAnswered(a)), a)
  {
    var l := s.calls[s.attempts[a].acquireCall].landing.value;
    assert s.log[l].Ended() <= s.clock;
  }

  /** A live entry was found: the attempt is over, and has made no call but its acquire. */
  lemma TurnedAwaySteps(cfg: Config, s: State, a: nat, phase: Phase)
    requires a < |s.attempts| && s.attempts[a].phase.Planning? && AttemptOk(cfg, s, a)
    requires Landed(s, s.attempts[a].acquireCall) && FoundEntry(ReplyTo(s, s.attempts[a].acquireCall))
    requires var request, reply := s.attempts[a].request, ReplyTo(s, s.attempts[a].acquireCall);
      match phase
      case Refused(why) =>
        && why == RefusalFor(request, reply)
        && (why == RecordUnreadable ==> cfg.codec.open(request.storeKey, reply.response) == None)
      case Replayed(response) =>
        && reply.FoundCompleted? && reply.fingerprint == request.fingerprint
        && cfg.codec.open(request.storeKey, reply.response) == Some(response)
      case _ => false
    ensures StepsAlone(cfg, s, Put(s, a, s.attempts[a].(phase := phase)), a)
  {
  }

  lemma NotAcquiredSteps(cfg: Config, s: State, a: nat)
    requires Enabled(cfg, s, AcquireAnswered(a)) && AttemptOk(cfg, s, a)
    requires ReplyTo(s, s.attempts[a].acquireCall) != Acquired
    ensures StepsAlone(cfg, s, Apply(cfg, s, AcquireAnswered(a)), a)
  {
    var reply := ReplyTo(s, s.attempts[a].acquireCall);
    var s' := Answered(cfg, s, a, reply);
    if FoundEntry(reply) {
      TurnedAwaySteps(cfg, s, a, s'.attempts[a].phase);
    } else {
      assert s' == s && s.attempts == s.attempts[a := s.attempts[a]];
    }
  }

  lemma FailedSteps(cfg: Config, s: State, a: nat)
    requires Enabled(cfg, s, AcquireFailed(a)) && AttemptOk(cfg, s, a)
    ensures StepsAlone(cfg, s, Apply(cfg, s, AcquireFailed(a)), a)
  {
  }

  lemma CompleteSteps(cfg: Config, s: State, a: nat, response: StoredResponse, nonce: string)
    requires Enabled(cfg, s, Finish(a, Some(response), nonce)) && AttemptOk(cfg, s, a)
    ensures StepsAlone(cfg, s, Apply(cfg, s, Finish(a, Some(response), nonce)), a)
  {
    var s' := Apply(cfg, s, Finish(a, Some(response), nonce));
    assert Sealing(cfg.codec, s.attempts[a].request.storeKey, response, nonce) == cfg.codec.seal(s.attempts[a].request.storeKey, response, nonce);
  }

  lemma NoOutcomeSteps(cfg: Config, s: State, a: nat, nonce: string)
    requires Enabled(cfg, s, Finish(a, None, nonce)) && AttemptOk(cfg, s, a)
    ensures StepsAlone(cfg, s, Apply(cfg, s, Finish(a, None, nonce)), a)
  {
  }

  lemma RecordedSteps(cfg: Config, s: State, action: Action)
    requires action.RecordAnswered? || action.RecordFailed?
    requires Enabled(cfg, s, action) && AttemptOk(cfg, s, action.a)
    ensures StepsAlone(cfg, s, Apply(cfg, s, action), action.a)
  {
  }

  lemma BeatSteps(cfg: Config, s: State, a: nat)
    requires Enabled(cfg, s, Beat(a)) && AttemptOk(cfg, s, a)
    ensures StepsAlone(cfg, s, Apply(cfg, s, Beat(a)), a)
  {
  }

  lemma BeatAnsweredSteps(cfg: Config, s: State, a: nat)
    requires Enabled(cfg, s, BeatAnswered(a)) && AttemptOk(cfg, s, a) && CallOk(cfg, s, s.attempts[a].pending.value)
    ensures StepsAlone(cfg, s, Apply(cfg, s, BeatAnswered(a)), a)
  {
  }

  lemma FlagSteps(cfg: Config, s: State, action: Action)
    requires action.Leave? || action.BeatFailed? || action.Ceiling?
    requires Enabled(cfg, s, action) && AttemptOk(cfg, s, action.a)
    ensures StepsAlone(cfg, s, Apply(cfg, s, action), action.a)
  {
  }

  /** The actions of one attempt. */
  predicate IsAttemptAction(action: Action) {
    !(action.Tick? || action.Begin? || action.Land? || action.Shutdown? || action.Crash?)
  }

  lemma AttemptActionSteps(cfg: Config, s: State, action: Action)
    requires Enabled(cfg, s, action) && IsAttemptAction(action)
    requires Indexed(s) && AttemptOk(cfg, s, action.a)
    requires action.BeatAnswered? ==> CallOk(cfg, s, s.attempts[action.a].pending.value)
    ensures StepsAlone(cfg, s, Apply(cfg, s, action), action.a)
  {
    match action {
      case AcquireAnswered(a) =>
        if ReplyTo(s, s.attempts[a].acquireCall) == Acquired {
          AcquiredSteps(cfg, s, a);
        } else {
          NotAcquiredSteps(cfg, s, a);
        }
      case AcquireFailed(a) => FailedSteps(cfg, s, a);
      case Finish(a, Some(response), nonce) => CompleteSteps(cfg, s, a, response, nonce);
      case Finish(a, None, nonce) => NoOutcomeSteps(cfg, s, a, nonce);
      case RecordAnswered(_) => RecordedSteps(cfg, s, action);
      case RecordFailed(_) => RecordedSteps(cfg, s, action);
      case Beat(a) => BeatSteps(cfg, s, a);
      case BeatAnswered(a) => BeatAnsweredSteps(cfg, s, a);
      case _ => FlagSteps(cfg, s, action);
    }
  }

  lemma AttemptActionKeeps(cfg: Config, s: State, action: Action)
    requires Inv(cfg, s) && Enabled(cfg, s, action) && IsAttemptAction(action)
    ensures Inv(cfg, Apply(cfg, s, action)) && StepsAlone(cfg, s, Apply(cfg, s, action), action.a)
  {
    assert AttemptOk(cfg, s, action.a);
    if action.BeatAnswered? {
      assert CallOk(cfg, s, s.attempts[action.a].pending.value);
    }
    AttemptActionSteps(cfg, s, action);
    OneAttemptSteps(cfg, s, Apply(cfg, s, action), action.a);
  }

  /** An action of one attempt leaves the others alone, and a call it issues is its own. */
  lemma NewCallIsOwn(cfg: Config, s: State, action: Action)
    requires Enabled(cfg, s, action) && IsAttemptAction(action)
    ensures var s' := Apply(cfg, s, action);
      && action.a < |s.attempts| == |s'.attempts| && s'.attempts == s.attempts[action.a := s'.attempts[action.a]]
      && s'.clock == s.clock
      && (s'.calls == s.calls || (|s'.calls| == |s.calls| + 1 && s'.calls[..|s.calls|] == s.calls && s'.calls[|s.calls|].attempt == action.a))
  {
  }

  /** Stopping a renewal, or losing the process, takes nothing away from what is true of an attempt. */
  lemma StoppedOrGone(cfg: Config, s: State, s': State, a: nat)
    requires StoreStill(s, s') && s'.calls == s.calls && a < |s.attempts| == |s'.attempts|
    requires var att := s.attempts[a]; s'.attempts[a] in {att, att.(stopped := true), att.(alive := false)}
    requires AttemptOk(cfg, s, a)
    ensures AttemptOk(cfg, s', a)
  {
  }

  /** A shutdown stops the renewals of its own process, a crash ends its attempts; no other process notices. */
  lemma ProcessWideEvolves(cfg: Config, s: State, action: Action)
    requires Enabled(cfg, s, action) && (action.Shutdown? || action.Crash?)
    ensures var s' := Apply(cfg, s, action);
      && StoreStill(s, s') && s'.calls == s.calls && |s'.attempts| == |s.attempts| && AllEvolve(s, s')
      && forall a :: 0 <= a < |s.attempts| ==>
           s'.attempts[a] ==
             if s.attempts[a].process != action.process then s.attempts[a]
             else if action.Shutdown? then s.attempts[a].(stopped := true)
             else s.attempts[a].(alive := false)
  {
  }

  lemma ProcessWideKeeps(cfg: Config, s: State, action: Action)
    requires Inv(cfg, s) && Enabled(cfg, s, action) && (action.Shutdown? || action.Crash?)
    ensures Inv(cfg, Apply(cfg, s, action))
  {
    var s' := Apply(cfg, s, action);
    ProcessWideEvolves(cfg, s, action);
    AcquireCallsExist(cfg, s);
    IndexedStays(s, s');
    ClientStepKeepsCalls(cfg, s, s');
    forall a | 0 <= a < |s'.attempts|
      ensures AttemptOk(cfg, s', a)
    {
      StoppedOrGone(cfg, s, s', a);
    }
  }

  lemma LandKeepsIndexed(cfg: Config, s: State, c: nat, check: int, stamp: int)
    requires Indexed(s) && Enabled(cfg, s, Land(c, check, stamp))
    ensures Indexed(Apply(cfg, s, Land(c, check, stamp)))
  {
    var s' := Apply(cfg, s, Land(c, check, stamp));
    forall l | 0 <= l < |s'.log|
      ensures && s'.log[l].call < |s'.calls|
              && s'.calls[s'.log[l].call].landing == Some(l)
              && s'.calls[s'.log[l].call].op == s'.log[l].op
              && s'.calls[s'.log[l].call].issuedAt <= s'.log[l].check && s'.log[l].Ended() <= s'.clock
    {
      if l < |s.log| {
        assert s'.log[l] == s.log[l] && s.calls[s.log[l].call].landing == Some(l);
        assert s.log[l].call != c;
      }
    }
  }

  lemma LandKeepsStore(cfg: Config, s: State, c: nat, check: int, stamp: int)
    requires StoreOk(s) && Enabled(cfg, s, Land(c, check, stamp)) && (s.log != [] ==> s.log[|s.log| - 1].Ended() <= s.clock)
    ensures StoreOk(Apply(cfg, s, Land(c, check, stamp)))
  {
    var out := Perform(s.records, s.calls[c].op, check, stamp);
    OneMoreLanding(s.log, Landing(c, s.calls[c].op, s.clock, check, stamp, out.reply));
  }

  lemma LandKeepsCall(cfg: Config, s: State, c: nat, check: int, stamp: int, d: nat)
    requires Enabled(cfg, s, Land(c, check, stamp)) && d < |s.calls| && s.calls[d].attempt < |s.attempts|
    requires CallOk(cfg, s, d)
    ensures CallOk(cfg, Apply(cfg, s, Land(c, check, stamp)), d)
  {
  }

  lemma LandKeepsAttempt(cfg: Config, s: State, c: nat, check: int, stamp: int, a: nat)
    requires Indexed(s) && Enabled(cfg, s, Land(c, check, stamp)) && a < |s.attempts| && AttemptOk(cfg, s, a)
    ensures AttemptOk(cfg, Apply(cfg, s, Land(c, check, stamp)), a)
  {
  }

  lemma LandKeeps(cfg: Config, s: State, c: nat, check: int, stamp: int)
    requires Inv(cfg, s) && Enabled(cfg, s, Land(c, check, stamp))
    ensures Inv(cfg, Apply(cfg, s, Land(c, check, stamp)))
  {
    var s' := Apply(cfg, s, Land(c, check, stamp));
    LandKeepsIndexed(cfg, s, c, check, stamp);
    LandKeepsStore(cfg, s, c, check, stamp);
    forall d | 0 <= d < |s'.calls|
      ensures s'.calls[d].attempt < |s'.attempts| && CallOk(cfg, s', d)
    {
      LandKeepsCall(cfg, s, c, check, stamp, d);
    }
    forall a | 0 <= a < |s'.attempts|
      ensures AttemptOk(cfg, s', a)
    {
      LandKeepsAttempt(cfg, s, c, check, stamp, a);
    }
  }

  lemma TickKeeps(cfg: Config, s: State, ms: nat)
    requires Inv(cfg, s)
    ensures Inv(cfg, Apply(cfg, s, Tick(ms)))
  {
    var s' := Apply(cfg, s, Tick(ms));
    forall c | 0 <= c < |s'.calls|
      ensures s'.calls[c].attempt < |s'.attempts| && CallOk(cfg, s', c)
    {
      TickKeepsCall(cfg, s, s', c);
    }
    forall a | 0 <= a < |s'.attempts|
      ensures AttemptOk(cfg, s', a)
    {
      TickKeepsAttempt(cfg, s, s', a);
    }
  }

  lemma TickKeepsCall(cfg: Config, s: State, s': State, c: nat)
    requires s' == s.(clock := s'.clock) && s.clock <= s'.clock
    requires c < |s.calls| && s.calls[c].attempt < |s.attempts| && CallOk(cfg, s, c)
    ensures CallOk(cfg, s', c)
  {
  }

  lemma TickKeepsAttempt(cfg: Config, s: State, s': State, a: nat)
    requires s' == s.(clock := s'.clock) && s.clock <= s'.clock
    requires a < |s.attempts| && AttemptOk(cfg, s, a)
    ensures AttemptOk(cfg, s', a)
  {
  }

  lemma StepKeeps(cfg: Config, s: State, action: Action)
    requires Inv(cfg, s) && Enabled(cfg, s, action)
    ensures Inv(cfg, Apply(cfg, s, action))
  {
    match action
    case Tick(ms) => TickKeeps(cfg, s, ms);
    case Begin(process, request, owner) => BeginKeeps(cfg, s, process, request, owner);
    case Land(c, check, stamp) => LandKeeps(cfg, s, c, check, stamp);
    case Shutdown(_) => ProcessWideKeeps(cfg, s, action);
    case Crash(_) => ProcessWideKeeps(cfg, s, action);
    case _ => AttemptActionKeeps(cfg, s, action);
  }

  /** Every state of every run satisfies the invariant. */
  lemma {:induction false} RunKeeps(cfg: Config, states: seq<State>, actions: seq<Action>, i: nat)
    requires Run(cfg, states, actions) && i < |states|
    ensures Inv(cfg, states[i])
    decreases i
  {
    if i > 0 {
      RunKeeps(cfg, states, actions, i - 1);
      assert StepAt(cfg, states, actions, i - 1);
      StepKeeps(cfg, states[i - 1], actions[i - 1]);
    }
  }

  lemma ReachableKeeps(cfg: Config, s: State)
    requires Reachable(cfg, s)
    ensures Inv(cfg, s)
  {
    var states, actions :| Run(cfg, states, actions) && states[|states| - 1] == s;
    RunKeeps(cfg, states, actions, |states| - 1);
  }
}
