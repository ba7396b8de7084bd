/**
 * Locks that were lost: when the calls of an attempt that lost its lock can
 * still write. It turns on when a call read the clock: a store that reads it
 * inside the step that decides the call is safe whatever the network does; a
 * statement that carries a client's earlier reading is safe exactly as far as
 * that reading goes.
 */
module LostLocks {
  import opened Wrappers
  import opened StoreContract
  import opened StoreRuns
  import opened JsValues
  import opened Protocol
  import opened ProtocolInvariant
  import opened ProtocolTheorems

  /** The attempt's lock is still the key's entry, and expires at `e`. */
  ghost predicate InPlace(s: State, a: nat, e: int) {
    && a < |s.attempts| && Won(s, s.attempts[a])
    && var (key, owner) := (s.attempts[a].request.storeKey, s.attempts[a].owner);
       Mine(s.records, key, owner) && s.records[key].expiresAt == e
  }

  /** The landing would be answered false, and change nothing. */
  ghost predicate RefusedNow(s: State, action: Action) {
    && action.Land? && action.c < |s.calls|
    && Perform(s.records, s.calls[action.c].op, action.check, action.stamp) == Outcome(s.records, Done(false))
  }

  ghost predicate AllRefused(states: seq<State>, actions: seq<Action>, i: nat, j: nat, a: nat)
    requires |states| == |actions| + 1 && j < |states|
  {
    forall n {:trigger actions[n]} :: i <= n < j && LandsFor(states[n], actions[n], a) ==> RefusedNow(states[n], actions[n])
  }

  /** While the lock is in place, the attempt's calls read the clock no earlier than it expires. */
  ghost predicate ReadPastExpiry(states: seq<State>, actions: seq<Action>, i: nat, j: nat, a: nat, e: int)
    requires |states| == |actions| + 1 && j < |states|
  {
    forall n {:trigger actions[n]} :: i <= n < j && LandsFor(states[n], actions[n], a) && InPlace(states[n], a, e) ==>
      e <= actions[n].check
  }

  /** One step: an own landing is refused exactly if it read past the expiry; everything else leaves the lock or takes it away. */
  lemma InPlaceAcrossOneStep(cfg: Config, s: State, action: Action, s': State, a: nat, e: int)
    requires Inv(cfg, s) && Enabled(cfg, s, action) && s' == Apply(cfg, s, action) && InPlace(s, a, e)
    ensures LandsFor(s, action, a) ==> (RefusedNow(s, action) <==> e <= action.check)
    ensures (LandsFor(s, action, a) ==> RefusedNow(s, action)) ==> InPlace(s', a, e) || Gone(s', a)
  {
    assert AttemptOk(cfg, s, a);
    if action.Land? {
      WonLandings(cfg, s, action.c, action.check, action.stamp, a);
      LandingOnLock(s.records, s.calls[action.c].op, s.attempts[a].request.storeKey, s.attempts[a].owner, action.check, action.stamp);
    } else {
      ClientActionFrame(cfg, s, action, s', a);
    }
  }

  lemma GoneIsRefused(cfg: Config, s: State, action: Action, a: nat)
    requires Inv(cfg, s) && Enabled(cfg, s, action) && Gone(s, a) && LandsFor(s, action, a)
    ensures RefusedNow(s, action)
  {
    WonLandings(cfg, s, action.c, action.check, action.stamp, a);
  }

  /**
   * Exactly when an expired lock stays untouched: in every run, from a state
   * on in which an attempt's lock is in place and expires at `e`, all its
   * calls are refused if and only if each one that lands while the lock is in
   * place read the clock at `e` or later. The lock then stays as it is or is
   * gone for good.
   */
  lemma {:induction false} UntouchedExactly(cfg: Config, states: seq<State>, actions: seq<Action>, i: nat, j: nat, a: nat, e: int)
    requires Run(cfg, states, actions) && i <= j < |states| && InPlace(states[i], a, e)
    ensures AllRefused(states, actions, i, j, a) <==> ReadPastExpiry(states, actions, i, j, a, e)
    ensures AllRefused(states, actions, i, j, a) ==> InPlace(states[j], a, e) || Gone(states[j], a)
    decreases j
  {
    if i < j {
      var n := j - 1;
      UntouchedExactly(cfg, states, actions, i, n, a, e);
      OneMoreStep(states, actions, i, n, a, e);
      if AllRefused(states, actions, i, n, a) {
        UntouchedStepAt(cfg, states, actions, n, a, e);
      }
    }
  }

  lemma UntouchedStepAt(cfg: Config, states: seq<State>, actions: seq<Action>, n: nat, a: nat, e: int)
    requires Run(cfg, states, actions) && n < |actions| && (InPlace(states[n], a, e) || Gone(states[n], a))
    ensures LandsFor(states[n], actions[n], a) ==>
      (RefusedNow(states[n], actions[n]) <==> (InPlace(states[n], a, e) ==> e <= actions[n].check))
    ensures (LandsFor(states[n], actions[n], a) ==> RefusedNow(states[n], actions[n])) ==>
      InPlace(states[n + 1], a, e) || Gone(states[n + 1], a)
  {
    RunKeeps(cfg, states, actions, n);
    assert StepAt(cfg, states, actions, n);
    UntouchedStep(cfg, states[n], actions[n], states[n + 1], a, e);
  }

  lemma OneMoreStep(states: seq<State>, actions: seq<Action>, i: nat, n: nat, a: nat, e: int)
    requires |states| == |actions| + 1 && i <= n < |actions|
    ensures AllRefused(states, actions, i, n + 1, a) <==>
      AllRefused(states, actions, i, n, a) && (LandsFor(states[n], actions[n], a) ==> RefusedNow(states[n], actions[n]))
    ensures ReadPastExpiry(states, actions, i, n + 1, a, e) <==>
      && ReadPastExpiry(states, actions, i, n, a, e)
      && (LandsFor(states[n], actions[n], a) && InPlace(states[n], a, e) ==> e <= actions[n].check)
  {
  }

  lemma UntouchedStep(cfg: Config, s: State, action: Action, s': State, a: nat, e: int)
    requires Inv(cfg, s) && Enabled(cfg, s, action) && s' == Apply(cfg, s, action) && (InPlace(s, a, e) || Gone(s, a))
    ensures LandsFor(s, action, a) ==> (RefusedNow(s, action) <==> (InPlace(s, a, e) ==> e <= action.check))
    ensures (LandsFor(s, action, a) ==> RefusedNow(s, action)) ==> InPlace(s', a, e) || Gone(s', a)
  {
    if InPlace(s, a, e) {
      InPlaceAcrossOneStep(cfg, s, action, s', a, e);
    } else {
      GoneAcrossOneStep(cfg, s, action, s', a);
      if LandsFor(s, action, a) {
        GoneIsRefused(cfg, s, action, a);
      }
    }
  }

  /** The attempt once had the lock, and does not hold a live one. */
  ghost predicate Lost(s: State, a: nat) {
    a < |s.attempts| && Won(s, s.attempts[a]) && !HoldsLock(s, s.attempts[a])
  }

  /** The store reads the clock for the attempt's calls inside the steps that decide them. */
  ghost predicate ReadsInside(states: seq<State>, actions: seq<Action>, i: nat, j: nat, a: nat)
    requires |states| == |actions| + 1 && j < |states|
  {
    forall n {:trigger actions[n]} :: i <= n < j && LandsFor(states[n], actions[n], a) ==> states[n].clock <= actions[n].check
  }

  lemma {:induction false} ClockGoesOn(cfg: Config, states: seq<State>, actions: seq<Action>, i: nat, j: nat)
    requires Run(cfg, states, actions) && i <= j < |states|
    ensures states[i].clock <= states[j].clock
    decreases j
  {
    if i < j {
      ClockGoesOn(cfg, states, actions, i, j - 1);
      assert StepAt(cfg, states, actions, j - 1);
    }
  }

  /**
   * Fencing on a store that reads the clock inside its steps (in memory,
   * Redis): once an attempt does not hold a live lock it once had, it never
   * holds it again, and all its calls are refused, however late they land.
   */
  lemma LostLockStaysHarmless(cfg: Config, states: seq<State>, actions: seq<Action>, i: nat, j: nat, a: nat)
    requires Run(cfg, states, actions) && i <= j < |states| && Lost(states[i], a) && ReadsInside(states, actions, i, j, a)
    ensures Lost(states[j], a) && AllRefused(states, actions, i, j, a)
  {
    var (key, owner) := (states[i].attempts[a].request.storeKey, states[i].attempts[a].owner);
    RunKeeps(cfg, states, actions, i);
    RunKeeps(cfg, states, actions, j);
    ClockGoesOn(cfg, states, actions, i, j);
    SameThroughout(cfg, states, actions, i, j, a);
    if Mine(states[i].records, key, owner) {
      var e := states[i].records[key].expiresAt;
      forall n | i <= n < j && LandsFor(states[n], actions[n], a) && InPlace(states[n], a, e)
        ensures e <= actions[n].check
      {
        ClockGoesOn(cfg, states, actions, i, n);
      }
      UntouchedExactly(cfg, states, actions, i, j, a, e);
    } else {
      GoneLockStaysHarmless(cfg, states, actions, i, j, a);
      forall n | i <= n < j && LandsFor(states[n], actions[n], a)
        ensures RefusedNow(states[n], actions[n])
      {
        GoneLockStaysHarmless(cfg, states, actions, i, n, a);
        RunKeeps(cfg, states, actions, n);
        assert StepAt(cfg, states, actions, n);
        GoneIsRefused(cfg, states[n], actions[n], a);
      }
    }
  }

  /** An attempt keeps its request and its token through a run. */
  lemma {:induction false} SameThroughout(cfg: Config, states: seq<State>, actions: seq<Action>, i: nat, j: nat, a: nat)
    requires Run(cfg, states, actions) && i <= j < |states| && a < |states[i].attempts|
    ensures SameAttempt(states[i], states[j], a)
    decreases j
  {
    if i < j {
      SameThroughout(cfg, states, actions, i, j - 1, a);
      SameAcrossStepAt(cfg, states, actions, j - 1, a);
    }
  }

  lemma SameAcrossStepAt(cfg: Config, states: seq<State>, actions: seq<Action>, n: nat, a: nat)
    requires Run(cfg, states, actions) && n < |actions| && a < |states[n].attempts|
    ensures SameAttempt(states[n], states[n + 1], a)
  {
    RunKeeps(cfg, states, actions, n);
    assert StepAt(cfg, states, actions, n) && AttemptOk(cfg, states[n], a);
    SameAcrossOneStep(cfg, states[n], actions[n], states[n + 1], a);
  }

  lemma SameAcrossOneStep(cfg: Config, s: State, action: Action, s': State, a: nat)
    requires Inv(cfg, s) && Enabled(cfg, s, action) && s' == Apply(cfg, s, action)
    requires a < |s.attempts| && s.attempts[a].acquireCall < |s.calls|
    ensures SameAttempt(s, s', a)
  {
    if !action.Land? {
      ClientActionFrame(cfg, s, action, s', a);
    }
  }
}
