/**
 * What the caller of a handler gets, and what is recorded: the observer that
 * runs the handler under the lock, event by event, against a closed form of
 * every trace.
 */
module Observer {
  import opened Wrappers

  /** What can happen to one execution: the handler's source, the caller leaving, the record step settling. */
  datatype Event<+V, +E> = Emit(value: V) | Fail(error: E) | Finish | Leave | Settle

  datatype Signal<+V, +E> = Next(value: V) | Error(error: E) | Complete

  datatype End<+E> = Failed(error: E) | Finished

  /**
   * The transport: whether the caller gets every value or only the last one,
   * and what of an outcome can be stored (`None`: nothing, release the key).
   */
  datatype Adapter<!V, !E, +O> =
    Adapter(sendsEveryValue: bool, captureSuccess: V -> Option<O>, captureError: E -> Option<O>)

  /** What a trace comes to: the values, how the source ended, when the caller left, whether the record step has settled since the end. */
  datatype Trace<+V, +E> = Trace(values: seq<V>, end: Option<End<E>>, left: Option<nat>, settled: bool)

  function After<V, E>(t: Trace<V, E>, event: Event<V, E>): Trace<V, E> {
    match event
    case Emit(value) => t.(values := t.values + [value])
    case Fail(error) => t.(end := Some(Failed(error)))
    case Finish => t.(end := Some(Finished))
    case Leave => if t.settled || t.left.Some? then t else t.(left := Some(|t.values|))
    case Settle => if t.end.Some? then t.(settled := true) else t
  }

  function TraceOf<V, E>(events: seq<Event<V, E>>): Trace<V, E> {
    if events == [] then Trace([], None, None, false)
    else After(TraceOf(events[..|events| - 1]), events[|events| - 1])
  }

  /** The Observable grammar: nothing follows the end. */
  predicate CanHappen<V, E>(t: Trace<V, E>, event: Event<V, E>) {
    event.Emit? || event.Fail? || event.Finish? ==> t.end.None?
  }

  ghost predicate Grammatical<V, E>(events: seq<Event<V, E>>) {
    forall i :: 0 <= i < |events| ==> CanHappen(TraceOf(events[..i]), events[i])
  }

  /** Several values to a caller that gets every value are a stream. */
  predicate IsStream<V, E, O>(adapter: Adapter<V, E, O>, t: Trace<V, E>) {
    adapter.sendsEveryValue && 2 <= |t.values|
  }

  /** How many values of a stream reach a caller that may leave, or takes `quota` values only. */
  function Taken<V, E>(t: Trace<V, E>, quota: Option<nat>): (n: nat)
    ensures n <= |t.values| || t.left.Some?
  {
    var wanted := if t.left.Some? then (if t.left.value < 2 then 0 else t.left.value) else |t.values|;
    if quota.Some? && quota.value < wanted then quota.value else wanted
  }

  function Nexts<V, E>(values: seq<V>): (signals: seq<Signal<V, E>>)
    ensures |signals| == |values|
    ensures forall i :: 0 <= i < |values| ==> signals[i] == Next(values[i])
  {
    seq(|values|, i requires 0 <= i < |values| => Next(values[i]))
  }

  function EndSignal<V, E>(end: End<E>): Signal<V, E> {
    match end
    case Failed(error) => Error(error)
    case Finished => Complete
  }

  predicate Enough(quota: Option<nat>, n: nat) {
    quota.Some? && quota.value <= n
  }

  /** Everything the caller has been sent. */
  function Delivered<V, E, O>(adapter: Adapter<V, E, O>, t: Trace<V, E>, quota: Option<nat>): seq<Signal<V, E>>
    requires t.left.Some? ==> t.left.value <= |t.values|
  {
    if IsStream(adapter, t) then
      Nexts(t.values[..Taken(t, quota)])
      + (if t.settled && t.end.Some? && t.left.None? && !Enough(quota, |t.values|) then [EndSignal(t.end.value)] else [])
    else if !t.settled || t.left.Some? || t.end.None? then
      []
    else if t.end.value.Failed? || t.values == [] then
      [EndSignal(t.end.value)]
    else
      [Next(t.values[|t.values| - 1])] + (if Enough(quota, 1) then [] else [Complete])
  }

  /** The outcomes handed to the record step: none, or one (`None` releases the key). */
  function Recorded<V, E, O>(adapter: Adapter<V, E, O>, t: Trace<V, E>, quota: Option<nat>): seq<Option<O>> {
    if IsStream(adapter, t) then
      if t.end.Some? || t.left.Some? || Enough(quota, |t.values|) then [None] else []
    else
      match t.end
      case None => []
      case Some(Failed(error)) => [adapter.captureError(error)]
      case Some(Finished) => [if t.values == [] then None else adapter.captureSuccess(t.values[|t.values| - 1])]
  }

  /** A continuation that waits for the record step. */
  datatype Then<+E> = ThenError(error: E) | ThenComplete | ThenLastAndComplete

  class Execution<V, E, O> {
    const adapter: Adapter<V, E, O>
    /** The caller takes that many values and leaves on its own; `None` if it stays. */
    const quota: Option<nat>

    var held: Option<V>
    var streaming: bool
    var stopped: bool
    var recorded: bool
    var waiting: seq<Then<E>>

    /** The subscriber: what it got, how many values, and whether it is closed. */
    var delivered: seq<Signal<V, E>>
    var received: nat
    var closed: bool
    /** The calls of the record step. */
    var records: seq<Option<O>>

    ghost var trace: Trace<V, E>

    ghost predicate Valid()
      reads this
    {
      && (quota.Some? ==> 1 <= quota.value)
      && (trace.left.Some? ==> trace.left.value <= |trace.values|)
      && (trace.settled ==> trace.end.Some?)
      && delivered == Delivered(adapter, trace, quota)
      && records == Recorded(adapter, trace, quota)
      && recorded == (records != [])
      && streaming == IsStream(adapter, trace)
      && (streaming ==> received == Taken(trace, quota))
      && (!streaming && !trace.settled ==> received == 0)
      && (!streaming ==> held == if trace.values == [] then None else Some(trace.values[|trace.values| - 1]))
      && (streaming ==> held.None?)
      && (!trace.settled ==> closed == (trace.left.Some? || (streaming && Enough(quota, |trace.values|))))
      && (trace.settled ==> closed)
      && (!trace.settled ==>
            waiting == match trace.end
                       case None => []
                       case Some(Failed(error)) => [ThenError(error)]
                       case Some(Finished) => [if streaming then ThenComplete else ThenLastAndComplete])
      && (trace.settled ==> waiting == [])
    }

    constructor (adapter: Adapter<V, E, O>, quota: Option<nat>)
      requires quota.Some? ==> 1 <= quota.value
      ensures Valid() && trace == TraceOf<V, E>([]) && this.adapter == adapter && this.quota == quota
    {
      this.adapter, this.quota := adapter, quota;
      held, streaming, stopped, recorded, waiting := None, false, false, false, [];
      delivered, received, closed, records := [], 0, false, [];
      trace := Trace([], None, None, false);
    }

    /** Stores the outcome, or releases the key when there is none, exactly once. */
    method Record(outcome: Option<O>)
      modifies this`recorded, this`records
      ensures recorded
      ensures records == if old(recorded) then old(records) else old(records) + [outcome]
    {
      if !recorded {
        recorded := true;
        records := records + [outcome];
      }
    }

    method StopStream()
      modifies this`stopped, this`recorded, this`records
      ensures recorded
      ensures records == if old(recorded) then old(records) else old(records) + [None]
    {
      stopped := true;
      Record(None);
    }

    /** What unsubscribing runs: a stream stops, a single result keeps running. */
    method Teardown()
      modifies this`stopped, this`recorded, this`records
      ensures recorded == (old(recorded) || streaming)
      ensures records == if old(recorded) || !streaming then old(records) else old(records) + [None]
    {
      if streaming {
        StopStream();
      }
    }

    /** `subscriber.next()`: a closed subscriber gets nothing, and one that has had enough leaves from inside the call. */
    method SendNext(value: V)
      modifies this`delivered, this`received, this`closed, this`stopped, this`recorded, this`records
      ensures delivered == if old(closed) then old(delivered) else old(delivered) + [Next(value)]
      ensures received == if old(closed) then old(received) else old(received) + 1
      ensures closed == (old(closed) || Enough(quota, received))
      ensures recorded == (old(recorded) || (streaming && !old(closed) && closed))
      ensures records == if recorded == old(recorded) then old(records) else old(records) + [None]
    {
      if closed {
        return;
      }
      delivered := delivered + [Next(value)];
      received := received + 1;
      if quota.Some? && quota.value <= received {
        closed := true;
        Teardown();
      }
    }

    /** `subscriber.error()` and `subscriber.complete()`. */
    method SendEnd(signal: Signal<V, E>)
      requires recorded
      modifies this`delivered, this`closed, this`stopped, this`recorded, this`records
      ensures delivered == if old(closed) then old(delivered) else old(delivered) + [signal]
      ensures closed && recorded && records == old(records)
    {
      if closed {
        return;
      }
      delivered := delivered + [signal];
      closed := true;
      Teardown();
    }

    method OnNext(value: V)
      requires Valid() && CanHappen(trace, Emit(value))
      modifies this
      ensures Valid() && trace == After(old(trace), Emit(value))
    {
      if !adapter.sendsEveryValue || (!streaming && held.None?) {
        trace := After(trace, Emit(value));
        held := Some(value);
      } else if !streaming {
        StartStream(value);
      } else {
        ContinueStream(value);
      }
    }

    /** A second value makes it a stream: the held one goes out first. */
    method StartStream(value: V)
      requires Valid() && CanHappen(trace, Emit(value)) && adapter.sendsEveryValue && !streaming && held.Some?
      modifies this
      ensures Valid() && trace == After(old(trace), Emit(value))
    {
      trace := After(trace, Emit(value));
      streaming := true;
      SendNext(held.value);
      held := None;
      Forward(value);
    }

    method ContinueStream(value: V)
      requires Valid() && CanHappen(trace, Emit(value)) && adapter.sendsEveryValue && streaming
      modifies this
      ensures Valid() && trace == After(old(trace), Emit(value))
    {
      OneMoreSent<V, E>(trace.values, value, received);
      trace := After(trace, Emit(value));
      Forward(value);
    }

    /** Sends one value of a stream on, and stops the stream if the caller is gone. */
    method Forward(value: V)
      requires streaming
      modifies this`delivered, this`received, this`closed, this`stopped, this`recorded, this`records
      ensures delivered == if old(closed) then old(delivered) else old(delivered) + [Next(value)]
      ensures received == if old(closed) then old(received) else old(received) + 1
      ensures closed == (old(closed) || Enough(quota, received))
      ensures recorded == (old(recorded) || closed)
      ensures records == if recorded == old(recorded) then old(records) else old(records) + [None]
    {
      SendNext(value);
      if closed {
        StopStream(); // the caller left before it was a stream
      }
    }

    method OnError(error: E)
      requires Valid() && CanHappen(trace, Fail(error))
      modifies this
      ensures Valid() && trace == After(old(trace), Fail(error))
    {
      trace := After(trace, Fail(error));
      assert delivered == Delivered(adapter, trace, quota);
      if streaming {
        Record(None);
      } else {
        Record(adapter.captureError(error));
      }
      waiting := waiting + [ThenError(error)];
    }

    method OnComplete()
      requires Valid() && CanHappen(trace, Finish)
      modifies this
      ensures Valid() && trace == After(old(trace), Finish)
    {
      trace := After(trace, Finish);
      assert delivered == Delivered(adapter, trace, quota);
      if streaming {
        Record(None);
        waiting := waiting + [ThenComplete];
        return;
      }
      Record(if held.Some? then adapter.captureSuccess(held.value) else None);
      waiting := waiting + [ThenLastAndComplete];
    }

    /** The caller unsubscribes. */
    method Unsubscribe()
      requires Valid()
      modifies this
      ensures Valid() && trace == After(old(trace), Leave)
    {
      trace := After(trace, Leave);
      if !closed {
        closed := true;
        Teardown();
      }
    }

    /** One continuation: the last value goes out before the end, unless the caller leaves in between. */
    method Continue(next: Then<E>)
      requires recorded && (next.ThenLastAndComplete? ==> !streaming)
      modifies this`delivered, this`received, this`closed, this`stopped, this`recorded, this`records
      ensures closed && recorded && records == old(records)
      ensures old(closed) ==> delivered == old(delivered)
      ensures !old(closed) ==>
        delivered == old(delivered) +
          match next
          case ThenError(error) => [Error(error)]
          case ThenComplete => [Complete]
          case ThenLastAndComplete =>
            if held.None? then [Complete]
            else [Next(held.value)] + (if Enough(quota, old(received) + 1) then [] else [Complete])
      ensures streaming ==> received == old(received)
    {
      match next {
        case ThenError(error) => SendEnd(Error(error));
        case ThenComplete => SendEnd(Complete);
        case ThenLastAndComplete =>
          if held.Some? {
            SendNext(held.value);
          }
          SendEnd(Complete);
      }
    }

    /** The record step has settled: what waited for it goes out. */
    method OnSettled()
      requires Valid()
      modifies this
      ensures Valid() && trace == After(old(trace), Settle)
    {
      SettleSends(adapter, trace, quota);
      trace := After(trace, Settle);
      if waiting != [] {
        Continue(waiting[0]);
        waiting := [];
      }
    }
  }

  /** What the end of the record step sends: the end of a stream, or the single result, to a caller that is there and wants it. */
  lemma SettleSends<V, E, O>(adapter: Adapter<V, E, O>, t: Trace<V, E>, quota: Option<nat>)
    requires t.left.Some? ==> t.left.value <= |t.values|
    requires (t.settled ==> t.end.Some?) && (quota.Some? ==> 1 <= quota.value)
    ensures var t' := After(t, Settle);
      && Recorded(adapter, t', quota) == Recorded(adapter, t, quota)
      && Delivered(adapter, t', quota) == Delivered(adapter, t, quota) +
           if t.settled || t.end.None? || t.left.Some? || (IsStream(adapter, t) && Enough(quota, |t.values|)) then []
           else if IsStream(adapter, t) then [EndSignal(t.end.value)]
           else SingleResult(t.values, t.end.value, quota)
  {
  }

  lemma OneMoreSent<V, E>(values: seq<V>, value: V, n: nat)
    requires n <= |values|
    ensures Nexts<V, E>((values + [value])[..n]) == Nexts<V, E>(values[..n])
    ensures n == |values| ==> Nexts<V, E>((values + [value])[..n + 1]) == Nexts<V, E>(values[..n]) + [Next(value)]
  {
    assert (values + [value])[..n] == values[..n];
  }

  /** Any grammatical trace, from subscription on, delivers and records what its closed form says. */
  method Observe<V, E, O>(adapter: Adapter<V, E, O>, quota: Option<nat>, events: seq<Event<V, E>>)
    returns (delivered: seq<Signal<V, E>>, records: seq<Option<O>>)
    requires Grammatical(events) && (quota.Some? ==> 1 <= quota.value)
    ensures TraceOf(events).left.Some? ==> TraceOf(events).left.value <= |TraceOf(events).values|
    ensures delivered == Delivered(adapter, TraceOf(events), quota)
    ensures records == Recorded(adapter, TraceOf(events), quota)
  {
    var execution := new Execution<V, E, O>(adapter, quota);
    for i := 0 to |events|
      invariant fresh(execution) && execution.adapter == adapter && execution.quota == quota
      invariant execution.Valid() && execution.trace == TraceOf(events[..i])
    {
      assert events[..i + 1][..i] == events[..i];
      assert CanHappen(TraceOf(events[..i]), events[i]);
      match events[i] {
        case Emit(value) => execution.OnNext(value);
        case Fail(error) => execution.OnError(error);
        case Finish => execution.OnComplete();
        case Leave => execution.Unsubscribe();
        case Settle => execution.OnSettled();
      }
    }
    assert events[..|events|] == events;
    return execution.delivered, execution.records;
  }

  // The same in terms of the events alone.

  /** The values the source emitted. */
  function Emitted<V, E>(events: seq<Event<V, E>>): seq<V> {
    if events == [] then []
    else
      var n := |events| - 1;
      Emitted(events[..n]) + if events[n].Emit? then [events[n].value] else []
  }

  ghost predicate IsEnd<V, E>(event: Event<V, E>, end: End<E>) {
    match end
    case Failed(error) => event == Fail(error)
    case Finished => event.Finish?
  }

  /** The source ended this way. */
  ghost predicate Ended<V, E>(events: seq<Event<V, E>>, end: End<E>) {
    exists i :: 0 <= i < |events| && IsEnd(events[i], end)
  }

  ghost predicate Over<V, E>(events: seq<Event<V, E>>) {
    exists i :: 0 <= i < |events| && (events[i].Fail? || events[i].Finish?)
  }

  /** The record step settled after the source had ended. */
  ghost predicate Settled<V, E>(events: seq<Event<V, E>>) {
    exists i :: 0 <= i < |events| && SettlesAt(events, i)
  }

  ghost predicate SettlesAt<V, E>(events: seq<Event<V, E>>, i: nat)
    requires i < |events|
  {
    events[i].Settle? && Over(events[..i])
  }

  /** The caller left at `i`, before the record step had settled. */
  ghost predicate LeavesAt<V, E>(events: seq<Event<V, E>>, i: nat)
    requires i < |events|
  {
    events[i].Leave? && !Settled(events[..i])
  }

  ghost predicate LeftEarly<V, E>(events: seq<Event<V, E>>) {
    exists i :: 0 <= i < |events| && LeavesAt(events, i)
  }

  /** `i` is where the caller first left early. */
  ghost predicate FirstLeaves<V, E>(events: seq<Event<V, E>>, i: nat) {
    i < |events| && LeavesAt(events, i) && !LeftEarly(events[..i])
  }

  lemma EndedSnoc<V, E>(events: seq<Event<V, E>>, end: End<E>)
    requires events != []
    ensures var n := |events| - 1; Ended(events, end) <==> Ended(events[..n], end) || IsEnd(events[n], end)
  {
    var n := |events| - 1;
    if Ended(events[..n], end) {
      var i :| 0 <= i < n && IsEnd(events[..n][i], end);
      assert IsEnd(events[i], end);
    }
    if Ended(events, end) {
      var i :| 0 <= i < |events| && IsEnd(events[i], end);
      assert i < n ==> IsEnd(events[..n][i], end);
    }
  }

  lemma OverSnoc<V, E>(events: seq<Event<V, E>>)
    requires events != []
    ensures var n := |events| - 1; Over(events) <==> Over(events[..n]) || events[n].Fail? || events[n].Finish?
  {
    var n := |events| - 1;
    if Over(events[..n]) {
      var i :| 0 <= i < n && (events[..n][i].Fail? || events[..n][i].Finish?);
      assert events[i].Fail? || events[i].Finish?;
    }
    if Over(events) {
      var i :| 0 <= i < |events| && (events[i].Fail? || events[i].Finish?);
      assert i < n ==> events[..n][i].Fail? || events[..n][i].Finish?;
    }
  }

  lemma SettledSnoc<V, E>(events: seq<Event<V, E>>)
    requires events != []
    ensures var n := |events| - 1; Settled(events) <==> Settled(events[..n]) || SettlesAt(events, n)
  {
    var n := |events| - 1;
    forall i | 0 <= i < n
      ensures SettlesAt(events[..n], i) <==> SettlesAt(events, i)
    {
      assert events[..n][..i] == events[..i];
    }
    if Settled(events[..n]) {
      var i :| 0 <= i < n && SettlesAt(events[..n], i);
      assert SettlesAt(events, i);
    }
  }

  lemma LeftSnoc<V, E>(events: seq<Event<V, E>>)
    requires events != []
    ensures var n := |events| - 1; LeftEarly(events) <==> LeftEarly(events[..n]) || LeavesAt(events, n)
    ensures var n := |events| - 1; forall i: nat :: FirstLeaves(events[..n], i) ==> FirstLeaves(events, i)
  {
    var n := |events| - 1;
    forall i | 0 <= i < n
      ensures LeavesAt(events[..n], i) <==> LeavesAt(events, i)
      ensures events[..n][..i] == events[..i]
    {
      assert events[..n][..i] == events[..i];
    }
    if LeftEarly(events[..n]) {
      var i :| 0 <= i < n && LeavesAt(events[..n], i);
      assert LeavesAt(events, i);
    }
  }

  lemma GrammaticalPrefix<V, E>(events: seq<Event<V, E>>)
    requires Grammatical(events) && events != []
    ensures Grammatical(events[..|events| - 1]) && CanHappen(TraceOf(events[..|events| - 1]), events[|events| - 1])
  {
    var n := |events| - 1;
    forall i | 0 <= i < n
      ensures CanHappen(TraceOf(events[..n][..i]), events[..n][i])
    {
      assert events[..n][..i] == events[..i] && CanHappen(TraceOf(events[..i]), events[i]);
    }
    assert CanHappen(TraceOf(events[..n]), events[n]);
  }

  lemma {:induction false} TellsValues<V, E>(events: seq<Event<V, E>>)
    ensures TraceOf(events).values == Emitted(events)
    decreases |events|
  {
    if events != [] {
      TellsValues(events[..|events| - 1]);
    }
  }

  lemma {:induction false} TellsOver<V, E>(events: seq<Event<V, E>>)
    ensures TraceOf(events).end.Some? <==> Over(events)
    decreases |events|
  {
    if events != [] {
      TellsOver(events[..|events| - 1]);
      OverSnoc(events);
    }
  }

  /** The grammar, said of the events alone: after an end, only leaving and settling. */
  lemma GrammarExactly<V, E>(events: seq<Event<V, E>>)
    ensures Grammatical(events) <==>
      forall i, j :: 0 <= i < j < |events| && (events[i].Fail? || events[i].Finish?) ==> events[j].Leave? || events[j].Settle?
  {
    forall j | 0 <= j < |events|
      ensures CanHappen(TraceOf(events[..j]), events[j]) <==>
        events[j].Leave? || events[j].Settle? || forall i :: 0 <= i < j ==> !(events[i].Fail? || events[i].Finish?)
    {
      TellsOver(events[..j]);
      assert forall i :: 0 <= i < j ==> events[..j][i] == events[i];
    }
  }

  lemma {:induction false} TellsEnd<V, E>(events: seq<Event<V, E>>, end: End<E>)
    requires Grammatical(events)
    ensures TraceOf(events).end == Some(end) <==> Ended(events, end)
    decreases |events|
  {
    if events != [] {
      var before := events[..|events| - 1];
      GrammaticalPrefix(events);
      TellsEnd(before, end);
      EndedSnoc(events, end);
    }
  }

  lemma {:induction false} TellsSettled<V, E>(events: seq<Event<V, E>>)
    ensures TraceOf(events).settled <==> Settled(events)
    decreases |events|
  {
    if events != [] {
      var before := events[..|events| - 1];
      TellsSettled(before);
      TellsOver(before);
      SettledSnoc(events);
    }
  }

  lemma {:induction false} TellsLeft<V, E>(events: seq<Event<V, E>>)
    ensures TraceOf(events).left.Some? <==> LeftEarly(events)
    ensures TraceOf(events).left.Some? ==>
      exists i: nat :: FirstLeaves(events, i) && TraceOf(events).left.value == |Emitted(events[..i])|
    decreases |events|
  {
    if events != [] {
      var n := |events| - 1;
      var before := events[..n];
      TellsLeft(before);
      TellsSettled(before);
      TellsValues(before);
      LeftSnoc(events);
      if TraceOf(before).left.Some? {
        var i: nat :| FirstLeaves(before, i) && TraceOf(before).left.value == |Emitted(before[..i])|;
        assert FirstLeaves(events, i) && before[..i] == events[..i];
      } else if LeavesAt(events, n) {
        assert FirstLeaves(events, n);
      }
    }
  }

  /** The values among what the caller was sent. */
  function Received<V, E>(signals: seq<Signal<V, E>>): seq<V> {
    if signals == [] then []
    else (if signals[0].Next? then [signals[0].value] else []) + Received(signals[1..])
  }

  lemma {:induction false} ReceivedNexts<V, E>(values: seq<V>, rest: seq<Signal<V, E>>)
    ensures Received(Nexts<V, E>(values) + rest) == values + Received(rest)
    decreases |values|
  {
    var signals := Nexts<V, E>(values) + rest;
    if values == [] {
      assert signals == rest;
    } else {
      assert signals[1..] == Nexts<V, E>(values[1..]) + rest;
      ReceivedNexts<V, E>(values[1..], rest);
      assert values == [values[0]] + values[1..];
    }
  }

  /** What a single result comes to: the last value and the end, unless one value is enough, or the error or bare end alone. */
  function SingleResult<V, E>(values: seq<V>, end: End<E>, quota: Option<nat>): seq<Signal<V, E>> {
    if end.Finished? && values != [] then
      if quota == Some(1) then [Next(values[|values| - 1])] else [Next(values[|values| - 1]), Complete]
    else
      [EndSignal(end)]
  }

  lemma SingleDelivered<V, E, O>(adapter: Adapter<V, E, O>, t: Trace<V, E>, quota: Option<nat>)
    requires t.left.Some? ==> t.left.value <= |t.values|
    requires !IsStream(adapter, t) && (t.settled ==> t.end.Some?) && (quota.Some? ==> 1 <= quota.value)
    ensures Delivered(adapter, t, quota) ==
      if t.settled && t.left.None? then SingleResult(t.values, t.end.value, quota) else []
  {
  }

  /**
   * One result, whatever the transport: for every grammatical list of events,
   * leave point and quota, the caller gets nothing at all unless the record
   * step settled after the source's end and the caller was still there, and
   * then exactly the last value, or the error, or the bare end.
   */
  lemma LastValueOnly<V, E, O>(adapter: Adapter<V, E, O>, events: seq<Event<V, E>>, quota: Option<nat>)
    requires Grammatical(events) && (quota.Some? ==> 1 <= quota.value)
    requires !(adapter.sendsEveryValue && 2 <= |Emitted(events)|)
    ensures TraceOf(events).left.Some? ==> TraceOf(events).left.value <= |TraceOf(events).values|
    ensures !Settled(events) || LeftEarly(events) ==> Delivered(adapter, TraceOf(events), quota) == []
    ensures Settled(events) && !LeftEarly(events) ==>
      exists end :: Ended(events, end) && Delivered(adapter, TraceOf(events), quota) == SingleResult(Emitted(events), end, quota)
  {
    var t := TraceOf(events);
    TellsValues(events);
    TellsSettled(events);
    TellsLeft(events);
    LeftWithin(events);
    SettledEnded(events);
    SingleDelivered(adapter, t, quota);
    if t.settled {
      TellsEnd(events, t.end.value);
    }
  }

  lemma {:induction false} LeftWithin<V, E>(events: seq<Event<V, E>>)
    ensures TraceOf(events).left.Some? ==> TraceOf(events).left.value <= |TraceOf(events).values|
    decreases |events|
  {
    if events != [] {
      LeftWithin(events[..|events| - 1]);
    }
  }

  lemma {:induction false} SettledEnded<V, E>(events: seq<Event<V, E>>)
    ensures TraceOf(events).settled ==> TraceOf(events).end.Some?
    decreases |events|
  {
    if events != [] {
      SettledEnded(events[..|events| - 1]);
    }
  }

  lemma StreamValues<V, E, O>(adapter: Adapter<V, E, O>, t: Trace<V, E>, quota: Option<nat>)
    requires (t.left.Some? ==> t.left.value <= |t.values|) && IsStream(adapter, t)
    ensures Received(Delivered(adapter, t, quota)) == t.values[..Taken(t, quota)]
  {
    var values := t.values[..Taken(t, quota)];
    var d := Delivered(adapter, t, quota);
    var rest := d[|values|..];
    assert d == Nexts<V, E>(values) + rest;
    ReceivedNexts<V, E>(values, rest);
    assert Received(rest) == [] && values + [] == values;
  }

  /** In order, without gaps, no more than the caller took, and everything if it stayed. */
  lemma StreamPrefix<V, E, O>(adapter: Adapter<V, E, O>, t: Trace<V, E>, quota: Option<nat>)
    requires (t.left.Some? ==> t.left.value <= |t.values|) && IsStream(adapter, t)
    ensures var values := Received(Delivered(adapter, t, quota));
      && values <= t.values && (quota.Some? ==> |values| <= quota.value)
      && (t.left.None? && !Enough(quota, |t.values|) ==> values == t.values)
      && (t.left.Some? ==> |values| <= t.left.value)
  {
    StreamValues(adapter, t, quota);
    assert t.values[..|t.values|] == t.values;
  }

  /** Nothing but values goes out before the end, and the end goes out last, once the record step has settled. */
  lemma StreamEnds<V, E, O>(adapter: Adapter<V, E, O>, t: Trace<V, E>, quota: Option<nat>)
    requires (t.left.Some? ==> t.left.value <= |t.values|) && IsStream(adapter, t)
    ensures var d := Delivered(adapter, t, quota);
      && (forall i :: 0 <= i < |d| && !d[i].Next? ==>
            i == |d| - 1 && t.settled && t.left.None? && t.end.Some? && d[i] == EndSignal(t.end.value))
      && (t.settled && t.end.Some? && t.left.None? && !Enough(quota, |t.values|) ==> d != [] && !d[|d| - 1].Next?)
  {
  }

  function Capped<V>(values: seq<V>, quota: Option<nat>): seq<V> {
    if quota.Some? && quota.value < |values| then values[..quota.value] else values
  }

  lemma {:induction false} EmittedPrefix<V, E>(events: seq<Event<V, E>>, i: nat)
    requires i <= |events|
    ensures Emitted(events[..i]) <= Emitted(events)
    decreases |events|
  {
    if i == |events| {
      assert events[..i] == events;
    } else {
      var before := events[..|events| - 1];
      EmittedPrefix(before, i);
      assert before[..i] == events[..i];
    }
  }

  lemma TakenCapped<V, E>(t: Trace<V, E>, quota: Option<nat>)
    requires t.left.Some? ==> t.left.value <= |t.values|
    ensures t.values[..Taken(t, quota)] ==
      Capped(if t.left.None? then t.values else if t.left.value < 2 then [] else t.values[..t.left.value], quota)
  {
    assert t.values[..|t.values|] == t.values;
  }

  /**
   * Exactly which values of a stream reach the caller: as many as it takes, of
   * all of them if it stayed, of those emitted before it left otherwise, and
   * none if it left before a second value made it a stream.
   */
  lemma StreamExactly<V, E, O>(adapter: Adapter<V, E, O>, events: seq<Event<V, E>>, quota: Option<nat>)
    requires Grammatical(events) && (quota.Some? ==> 1 <= quota.value)
    requires adapter.sendsEveryValue && 2 <= |Emitted(events)|
    ensures TraceOf(events).left.Some? ==> TraceOf(events).left.value <= |TraceOf(events).values|
    ensures !LeftEarly(events) ==> Received(Delivered(adapter, TraceOf(events), quota)) == Capped(Emitted(events), quota)
    ensures LeftEarly(events) ==>
      exists i: nat ::
        && FirstLeaves(events, i)
        && Received(Delivered(adapter, TraceOf(events), quota))
             == Capped(if |Emitted(events[..i])| < 2 then [] else Emitted(events[..i]), quota)
  {
    TellsValues(events);
    TellsLeft(events);
    LeftWithin(events);
    var t := TraceOf(events);
    StreamValues(adapter, t, quota);
    TakenCapped(t, quota);
    if t.left.Some? {
      var i: nat :| FirstLeaves(events, i) && t.left.value == |Emitted(events[..i])|;
      EmittedPrefix(events, i);
      assert t.values[..t.left.value] == Emitted(events[..i]);
    }
  }

  /** The same of the events: the end goes out last, if the caller is still there. */
  lemma StreamEndsLast<V, E, O>(adapter: Adapter<V, E, O>, events: seq<Event<V, E>>, quota: Option<nat>)
    requires Grammatical(events) && adapter.sendsEveryValue && 2 <= |Emitted(events)|
    requires TraceOf(events).left.Some? ==> TraceOf(events).left.value <= |TraceOf(events).values|
    ensures var d := Delivered(adapter, TraceOf(events), quota);
      && (forall i :: 0 <= i < |d| && !d[i].Next? ==>
            i == |d| - 1 && Settled(events) && !LeftEarly(events) && exists end :: Ended(events, end) && d[i] == EndSignal(end))
      && (Settled(events) && !LeftEarly(events) && !Enough(quota, |Emitted(events)|) ==> d != [] && !d[|d| - 1].Next?)
  {
    var t := TraceOf(events);
    TellsValues(events);
    TellsSettled(events);
    TellsLeft(events);
    var d := Delivered(adapter, t, quota);
    StreamEnds(adapter, t, quota);
    forall i | 0 <= i < |d| && !d[i].Next?
      ensures i == |d| - 1 && Settled(events) && !LeftEarly(events) && exists end :: Ended(events, end) && d[i] == EndSignal(end)
    {
      TellsEnd(events, t.end.value);
    }
    if t.settled {
      SettledEnded(events);
    }
  }

  /**
   * A stream: for every grammatical list of events, leave point and quota, the
   * caller gets the source's values in order and without gaps, all of them
   * unless it left or had enough, and the end last, after the record step
   * settled, if it was still there.
   */
  lemma StreamInOrder<V, E, O>(adapter: Adapter<V, E, O>, events: seq<Event<V, E>>, quota: Option<nat>)
    requires Grammatical(events) && (quota.Some? ==> 1 <= quota.value)
    requires adapter.sendsEveryValue && 2 <= |Emitted(events)|
    ensures TraceOf(events).left.Some? ==> TraceOf(events).left.value <= |TraceOf(events).values|
    ensures var d := Delivered(adapter, TraceOf(events), quota);
      && Received(d) <= Emitted(events)
      && (quota.Some? ==> |Received(d)| <= quota.value)
      && (!LeftEarly(events) && !Enough(quota, |Emitted(events)|) ==> Received(d) == Emitted(events))
      && (LeftEarly(events) ==> exists i: nat :: FirstLeaves(events, i) && |Received(d)| <= |Emitted(events[..i])|)
      && (forall i :: 0 <= i < |d| && !d[i].Next? ==>
            i == |d| - 1 && Settled(events) && !LeftEarly(events) && exists end :: Ended(events, end) && d[i] == EndSignal(end))
      && (Settled(events) && !LeftEarly(events) && !Enough(quota, |Emitted(events)|) ==> d != [] && !d[|d| - 1].Next?)
  {
    LeftWithin(events);
    StreamExactly(adapter, events, quota);
    StreamEndsLast(adapter, events, quota);
    if LeftEarly(events) {
      TellsValues(events);
      TellsLeft(events);
      StreamPrefix(adapter, TraceOf(events), quota);
    } else {
      assert Capped(Emitted(events), quota) <= Emitted(events);
    }
  }

  /** A stream never stores an outcome; a single result is recorded once the source has ended, and never before. */
  lemma RecordedOnce<V, E, O>(adapter: Adapter<V, E, O>, events: seq<Event<V, E>>, quota: Option<nat>)
    requires Grammatical(events)
    ensures var (r, stream) := (Recorded(adapter, TraceOf(events), quota), adapter.sendsEveryValue && 2 <= |Emitted(events)|);
      && |r| <= 1
      && (Over(events) ==> |r| == 1)
      && (stream ==> forall outcome :: outcome in r ==> outcome.None?)
      && (!stream ==> (r != [] <==> Over(events)))
      && (stream && LeftEarly(events) ==> r == [None])
  {
    TellsValues(events);
    TellsOver(events);
    TellsLeft(events);
  }

  /**
   * What is recorded, from the events alone, for every leave point and quota.
   * Of a single result: nothing before the source ends; then the capture of
   * the last value, or of the error, or the release of the key if there was
   * neither. Of a stream: nothing is ever stored, and the key is released as
   * soon as the source has ended or the caller left or had enough.
   */
  lemma RecordedExactly<V, E, O>(adapter: Adapter<V, E, O>, events: seq<Event<V, E>>, quota: Option<nat>)
    requires Grammatical(events)
    ensures var (r, values) := (Recorded(adapter, TraceOf(events), quota), Emitted(events));
      if adapter.sendsEveryValue && 2 <= |values| then
        r == if Over(events) || LeftEarly(events) || (quota.Some? && quota.value <= |values|) then [None] else []
      else
        && (!Over(events) ==> r == [])
        && (forall error :: Ended(events, Failed(error)) ==> r == [adapter.captureError(error)])
        && (Ended(events, Finished) && values != [] ==> r == [adapter.captureSuccess(values[|values| - 1])])
        && (Ended(events, Finished) && values == [] ==> r == [None])
  {
    TellsValues(events);
    TellsOver(events);
    TellsLeft(events);
    TellsEnd(events, Finished);
    forall error
      ensures Ended(events, Failed(error)) ==> TraceOf(events).end == Some(Failed(error))
    {
      TellsEnd(events, Failed(error));
    }
  }

  /** One value followed by an error delivers only the error, also to a caller that gets every value; the value is dropped. */
  lemma OneValueThenError<V, E, O>(adapter: Adapter<V, E, O>, value: V, error: E)
    ensures var t := TraceOf([Emit(value), Fail(error), Settle]);
            && t == Trace([value], Some(Failed(error)), None, true)
            && Delivered(adapter, t, None) == [Error(error)]
            && Recorded(adapter, t, None) == [adapter.captureError(error)]
  {
    var events: seq<Event<V, E>> := [Emit(value), Fail(error), Settle];
    assert events[..2] == [Emit(value), Fail(error)] && events[..2][..1] == [Emit(value)] && events[..2][..1][..0] == [];
    assert TraceOf(events[..2][..1]) == After(TraceOf<V, E>([]), Emit(value));
  }

  /** Nothing sent is taken back, and nothing recorded changes: more events only add to both. */
  lemma OnlyAppends<V, E, O>(adapter: Adapter<V, E, O>, t: Trace<V, E>, quota: Option<nat>, event: Event<V, E>)
    requires t.left.Some? ==> t.left.value <= |t.values|
    requires (quota.Some? ==> 1 <= quota.value) && (t.settled ==> t.end.Some?) && CanHappen(t, event)
    ensures Delivered(adapter, t, quota) <= Delivered(adapter, After(t, event), quota)
    ensures Recorded(adapter, t, quota) <= Recorded(adapter, After(t, event), quota)
  {
    var t' := After(t, event);
    if IsStream(adapter, t) {
      assert Taken(t, quota) <= Taken(t', quota) || t.left.Some? || t'.left.Some?;
      assert t'.values[..|t.values|] == t.values;
    }
  }
}
