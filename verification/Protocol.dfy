/**
 * The lock and record protocol as a step machine: a store, a clock, any number
 * of attempts, and their outstanding store calls, which may land at any later
 * moment or never. Every step a caller, a handler, a timer, a process or the
 * network can take is an action; a run is any sequence of enabled actions.
 */
module Protocol {
  import opened Wrappers
  import opened StoreContract
  import opened StoreRuns
  import opened JsValues

  /** 2 ** 31 - 1: the longest delay a timer takes. */
  const MAX_TIMEOUT := 0x7FFF_FFFF

  function Min(a: int, b: int): int { if a <= b then a else b }

  /** Seals outcomes for the store and opens what it returns; `None` where sealing throws or a record cannot be opened. */
  datatype Codec =
    Codec(seal: (string, StoredResponse, string) -> Option<Payload>, open: (string, Payload) -> Option<StoredResponse>)

  datatype Config = Config(storeTimeout: nat, codec: Codec)

  /** The options that apply to one call, in milliseconds. */
  datatype Settings = Settings(lockTtl: nat, ttl: nat, maxLockHold: nat)

  datatype Request = Request(storeKey: string, fingerprint: string, settings: Settings)

  datatype Refusal = KeyReused | KeyInUse | RecordUnreadable

  datatype Phase =
    | Planning                          // waiting for the reply to `acquire`
    | Executing                         // the handler runs under the lock
    | Recording                         // waiting for the reply to `complete` or `release`
    | Recorded(confirmed: bool)
    | Refused(why: Refusal)
    | Replayed(response: StoredResponse)
    | Failed                            // `acquire` threw or timed out
    | Abandoned                         // the caller left while the lock was being taken

  /** Which store call found out that the outcome is not in the store. */
  datatype LostIn = InExtend | InComplete | InRelease

  /**
   * One attempt. `stopped`, `pending` and `lost` are its renewal's; renewals
   * run only between `Executing` and the end of `Recording`. `lost` is the
   * renewal whose refusal told the attempt that its lock is gone.
   */
  datatype Attempt = Attempt(
    process: nat,
    request: Request,
    owner: string,
    alive: bool,
    closed: bool,
    phase: Phase,
    startedAt: int,
    acquireCall: nat,
    settleCall: Option<nat>,
    outcome: Option<StoredResponse>,
    stopped: bool,
    pending: Option<nat>,
    lost: Option<nat>,
    lostEvents: seq<LostIn>)
  {
    function HoldLimit(): int { Min(request.settings.maxLockHold, MAX_TIMEOUT) }
  }

  /** A store call some attempt made; `landing` says where in the store's history it landed, if it has. */
  datatype StoreCall = StoreCall(attempt: nat, op: Op<Payload>, issuedAt: int, landing: Option<nat>)

  datatype State = State(
    clock: int,
    records: Records<Payload>,
    attempts: seq<Attempt>,
    calls: seq<StoreCall>,
    log: seq<Landing<Payload>>)

  datatype Action =
    | Tick(ms: nat)
    | Begin(process: nat, request: Request, owner: string)
    | Leave(a: nat)
    | Land(c: nat, check: int, stamp: int)
    | AcquireAnswered(a: nat)
    | AcquireFailed(a: nat)
    | Finish(a: nat, outcome: Option<StoredResponse>, nonce: string)
    | RecordAnswered(a: nat)
    | RecordFailed(a: nat)
    | Beat(a: nat)
    | BeatAnswered(a: nat)
    | BeatFailed(a: nat)
    | Ceiling(a: nat)
    | Shutdown(process: nat)
    | Crash(process: nat)

  function Start(clock: int): State {
    State(clock, map[], [], [], [])
  }

  predicate Has(s: State, a: nat) {
    a < |s.attempts| && s.attempts[a].alive
  }

  predicate Landed(s: State, c: nat) {
    c < |s.calls| && s.calls[c].landing.Some? && s.calls[c].landing.value < |s.log|
  }

  function ReplyTo(s: State, c: nat): Reply<Payload>
    requires Landed(s, c)
  {
    s.log[s.calls[c].landing.value].reply
  }

  /**
   * When an action can happen. Timers fire late or not at all: a blocked event
   * loop lets the clock run past any of them. `ask()` gives up on a call when
   * the store throws or its timer fires. A call lands with clock readings taken
   * after it was issued: before it reached the store, or inside it.
   */
  predicate Enabled(cfg: Config, s: State, action: Action) {
    match action
    case Tick(_) => true
    case Begin(_, request, owner) =>
      // A random UUID: no attempt has had it before.
      forall a :: 0 <= a < |s.attempts| ==> s.attempts[a].owner != owner
    case Leave(a) => Has(s, a)
    case Land(c, check, stamp) =>
      c < |s.calls| && s.calls[c].landing.None? && s.calls[c].issuedAt <= check <= stamp
    case AcquireAnswered(a) => Has(s, a) && s.attempts[a].phase.Planning? && Landed(s, s.attempts[a].acquireCall)
    case AcquireFailed(a) => Has(s, a) && s.attempts[a].phase.Planning?
    case Finish(a, outcome, _) =>
      Has(s, a) && s.attempts[a].phase.Executing? && (outcome.Some? ==> Storable(outcome.value))
    case RecordAnswered(a) =>
      && Has(s, a) && s.attempts[a].phase.Recording?
      && s.attempts[a].settleCall.Some? && Landed(s, s.attempts[a].settleCall.value)
    case RecordFailed(a) => Has(s, a) && s.attempts[a].phase.Recording?
    case Beat(a) => Has(s, a) && !s.attempts[a].stopped && s.attempts[a].pending.None?
    case BeatAnswered(a) => Has(s, a) && s.attempts[a].pending.Some? && Landed(s, s.attempts[a].pending.value)
    case BeatFailed(a) => Has(s, a) && s.attempts[a].pending.Some?
    case Ceiling(a) =>
      && Has(s, a) && s.attempts[a].phase.Executing? && !s.attempts[a].stopped
      && s.attempts[a].startedAt + s.attempts[a].HoldLimit() <= s.clock
    case Shutdown(_) => true
    case Crash(_) => true
  }

  function Apply(cfg: Config, s: State, action: Action): State
    requires Enabled(cfg, s, action)
  {
    match action
    case Tick(ms) => s.(clock := s.clock + ms)
    case Begin(process, request, owner) =>
      var att := Attempt(process, request, owner, true, false, Planning, s.clock, |s.calls|, None, None, true, None, None, []);
      var op := Acquire(request.storeKey, owner, request.fingerprint, request.settings.lockTtl);
      s.(attempts := s.attempts + [att], calls := s.calls + [StoreCall(|s.attempts|, op, s.clock, None)])
    case Leave(a) => Put(s, a, s.attempts[a].(closed := true))
    case Land(c, check, stamp) =>
      var out := Perform(s.records, s.calls[c].op, check, stamp);
      var l := Landing(c, s.calls[c].op, s.clock, check, stamp, out.reply);
      s.(clock := l.Ended(),
         records := out.records,
         calls := s.calls[c := s.calls[c].(landing := Some(|s.log|))],
         log := s.log + [l])
    case AcquireAnswered(a) => Answered(cfg, s, a, ReplyTo(s, s.attempts[a].acquireCall))
    case AcquireFailed(a) => ReleaseQuietly(s, a, s.attempts[a].(phase := Failed))
    case Finish(a, outcome, nonce) =>
      var att := s.attempts[a].(phase := Recording, outcome := outcome);
      (match outcome
       case Some(response) =>
         (match cfg.codec.seal(att.request.storeKey, response, nonce)
          case Some(sealed) => Settle(s, a, att, Complete(att.request.storeKey, att.owner, sealed, att.request.settings.ttl))
          case None => Put(s, a, Confirmed(att, false)))
       case None => ReleaseQuietly(s, a, att))
    case RecordAnswered(a) => Put(s, a, Confirmed(s.attempts[a], ReplyTo(s, s.attempts[a].settleCall.value) == Done(true)))
    case RecordFailed(a) => Put(s, a, Confirmed(s.attempts[a], false))
    case Beat(a) =>
      var att := s.attempts[a];
      Put(s, a, att.(pending := Some(|s.calls|)))
        .(calls := s.calls + [StoreCall(a, Extend(att.request.storeKey, att.owner, att.request.settings.lockTtl), s.clock, None)])
    case BeatAnswered(a) =>
      var att := s.attempts[a];
      Put(s, a, if ReplyTo(s, att.pending.value) == Done(true) then att.(pending := None) else Refuted(att))
    case BeatFailed(a) => Put(s, a, s.attempts[a].(pending := None))
    case Ceiling(a) => Put(s, a, s.attempts[a].(stopped := true))
    case Shutdown(process) => s.(attempts := Each(s.attempts, process, (att: Attempt) => att.(stopped := true)))
    case Crash(process) => s.(attempts := Each(s.attempts, process, (att: Attempt) => att.(alive := false)))
  }

  function Put(s: State, a: nat, att: Attempt): State
    requires a < |s.attempts|
  {
    s.(attempts := s.attempts[a := att])
  }

  function Each(attempts: seq<Attempt>, process: nat, change: Attempt -> Attempt): seq<Attempt> {
    seq(|attempts|, i requires 0 <= i < |attempts| =>
      if attempts[i].process == process then change(attempts[i]) else attempts[i])
  }

  /** Makes the call that ends the attempt's claim on its key. */
  function Settle(s: State, a: nat, att: Attempt, op: Op<Payload>): State
    requires a < |s.attempts|
  {
    Put(s, a, att.(settleCall := Some(|s.calls|))).(calls := s.calls + [StoreCall(a, op, s.clock, None)])
  }

  function ReleaseQuietly(s: State, a: nat, att: Attempt): State
    requires a < |s.attempts|
  {
    Settle(s, a, att, Release(att.request.storeKey, att.owner))
  }

  /** What the attempt does with the store's answer to `acquire`. */
  function Answered(cfg: Config, s: State, a: nat, reply: Reply<Payload>): State
    requires a < |s.attempts|
  {
    var att := s.attempts[a];
    match reply
    case Acquired =>
      if att.closed then ReleaseQuietly(s, a, att.(phase := Abandoned))
      else Put(s, a, att.(phase := Executing, startedAt := s.clock, stopped := false))
    case FoundInFlight(fingerprint) =>
      Put(s, a, att.(phase := Refused(if fingerprint != att.request.fingerprint then KeyReused else KeyInUse)))
    case FoundCompleted(fingerprint, response) =>
      if fingerprint != att.request.fingerprint then
        Put(s, a, att.(phase := Refused(KeyReused)))
      else
        (match cfg.codec.open(att.request.storeKey, response)
         case Some(response) => Put(s, a, att.(phase := Replayed(response)))
         case None => Put(s, a, att.(phase := Refused(RecordUnreadable))))
    case Done(_) => s
  }

  /** The record step settles: the attempt says so once if the store did not confirm it. */
  function Confirmed(att: Attempt, ok: bool): Attempt {
    var told := if ok || att.lost.Some? then att.lostEvents
                else att.lostEvents + [if att.outcome.Some? then InComplete else InRelease];
    att.(phase := Recorded(ok), lostEvents := told, stopped := true)
  }

  /** A renewal was refused: the lock is gone, unless the outcome is being stored or renewals have stopped. */
  function Refuted(att: Attempt): Attempt {
    if !att.stopped && att.phase.Executing? then
      att.(pending := None, lost := att.pending, lostEvents := att.lostEvents + [InExtend], stopped := true)
    else
      att.(pending := None, stopped := true)
  }

  /** Action `i` of a run is enabled, and leads from its state to the next. */
  ghost predicate StepAt(cfg: Config, states: seq<State>, actions: seq<Action>, i: nat)
    requires |states| == |actions| + 1 && i < |actions|
  {
    Enabled(cfg, states[i], actions[i]) && states[i + 1] == Apply(cfg, states[i], actions[i])
  }

  ghost predicate Run(cfg: Config, states: seq<State>, actions: seq<Action>) {
    && |states| == |actions| + 1
    && (exists clock :: states[0] == Start(clock))
    && forall i :: 0 <= i < |actions| ==> StepAt(cfg, states, actions, i)
  }

  /** Every state some run of enabled actions leads to. */
  ghost predicate Reachable(cfg: Config, s: State) {
    exists states, actions :: Run(cfg, states, actions) && states[|states| - 1] == s
  }
}
