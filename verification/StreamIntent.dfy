/**
 The event producer of `ferridis-adapter-sdk/src/server.rs`: an adapter's flow stream
 becomes server-sent events, its signals sent only when they change.
 */
module StreamIntent {
  import opened Wrappers
  import opened Segments
  import opened Backpressure
  import Json

  datatype DispatchError = DispatchError(status: nat, message: string)

  type FlowItem = Result<StreamChunk, DispatchError>

  datatype SseEvent = SseEvent(name: string, data: string)

  const END := SseEvent("end", "{}")

  function SignalBody(signal: Signal): Json.Value {
    Json.Object(map["signal" := Json.String(WireName(signal))])
  }

  function ErrorBody(e: DispatchError): Json.Value {
    Json.Object(map["status" := Json.Number(e.status, 0), "message" := Json.String(e.message)])
  }

  function SignalEvent(json: Json.Codec, signal: Signal): SseEvent {
    SseEvent("backpressure", json.toText(SignalBody(signal)))
  }

  function ErrorEvent(json: Json.Codec, e: DispatchError): SseEvent {
    SseEvent("error", json.toText(ErrorBody(e)))
  }

  function ChunkEvent(json: Json.Codec, data: Json.Value): SseEvent {
    SseEvent("chunk", json.toText(data))
  }

  function Change(json: Json.Codec, current: Signal, signal: Signal): seq<SseEvent> {
    if signal == current then [] else [SignalEvent(json, signal)]
  }

  /** The events still to be sent when `flow` is what the adapter still produces. */
  function Emit(json: Json.Codec, flow: seq<FlowItem>, current: Signal): seq<SseEvent>
    decreases |flow|
  {
    if flow == [] then [END]
    else
      match flow[0]
      case Err(e) => [ErrorEvent(json, e)]
      case Ok(chunk) =>
        Change(json, current, chunk.signal) +
        if chunk.signal == Halt then []
        else [ChunkEvent(json, chunk.data)] + Emit(json, flow[1..], chunk.signal)
  }

  function Produced(json: Json.Codec, dispatched: Result<seq<FlowItem>, DispatchError>): seq<SseEvent> {
    match dispatched
    case Err(e) => [ErrorEvent(json, e), END]
    case Ok(flow) => Emit(json, flow, Continue)
  }

  method DispatchStreamIntent(json: Json.Codec, dispatched: Result<seq<FlowItem>, DispatchError>)
    returns (events: seq<SseEvent>)
    ensures events == Produced(json, dispatched)
  {
    if dispatched.Err? {
      return [ErrorEvent(json, dispatched.error), END];
    }
    var inner := dispatched.value;
    events := [];
    var currentSignal := Continue;
    while inner != []
      invariant events + Emit(json, inner, currentSignal) == Emit(json, dispatched.value, Continue)
      decreases |inner|
    {
      var item := inner[0];
      ghost var sent, signalBefore := events, currentSignal;
      inner := inner[1..];
      match item {
        case Ok(chunk) =>
          var signal := chunk.signal;
          if signal != currentSignal {
            currentSignal := signal;
            events := events + [SignalEvent(json, signal)];
          }
          assert events == sent + Change(json, signalBefore, signal);
          if signal == Halt {
            return;
          }
          events := events + [ChunkEvent(json, chunk.data)];
          Regroup(sent, Change(json, signalBefore, signal), [ChunkEvent(json, chunk.data)], Emit(json, inner, signal));
        case Err(e) =>
          events := events + [ErrorEvent(json, e)];
          return;
      }
    }
    events := events + [END];
  }

  // ---- What the events say ----------------------------------------------------------

  /** An error event is read as an object with the error's status and message, and nothing else. */
  lemma ErrorEventTells(json: Json.Codec, e: DispatchError)
    requires json.Faithful()
    ensures ErrorEvent(json, e).name == "error"
    ensures var told := json.parse(ErrorEvent(json, e).data);
      && told.Some? && told.value.Object? && told.value.fields.Keys == {"status", "message"}
      && told.value.fields["status"] == Json.Number(e.status, 0)
      && told.value.fields["message"] == Json.String(e.message)
  {
    assert json.parse(json.toText(ErrorBody(e))) == Some(ErrorBody(e));
  }

  /** A signal event is read as an object with the signal's wire name, and nothing else. */
  lemma SignalEventTells(json: Json.Codec, signal: Signal)
    requires json.Faithful()
    ensures SignalEvent(json, signal).name == "backpressure"
    ensures var told := json.parse(SignalEvent(json, signal).data);
      && told.Some? && told.value.Object? && told.value.fields.Keys == {"signal"}
      && told.value.fields["signal"] == Json.String(
           match signal case Continue => "continue" case SlowDown => "slow-down" case Halt => "halt")
  {
    assert json.parse(json.toText(SignalBody(signal))) == Some(SignalBody(signal));
  }

  // ---- What the encoding preserves -------------------------------------------------

  /** The chunks before the first halt or error: the ones that are sent. */
  function Delivered(flow: seq<FlowItem>): seq<StreamChunk>
    decreases |flow|
  {
    if flow == [] || flow[0].Err? || flow[0].value.signal == Halt then []
    else [flow[0].value] + Delivered(flow[1..])
  }

  /** A receiver that tracks the signal from the events alone. */
  function Replay(json: Json.Codec, events: seq<SseEvent>, current: Signal): seq<StreamChunk>
    decreases |events|
  {
    if events == [] then []
    else
      var body := json.parse(events[0].data);
      if body.None? then Replay(json, events[1..], current)
      else if events[0].name == "chunk" then
        [StreamChunk(body.value, current)] + Replay(json, events[1..], current)
      else if events[0].name == "backpressure" && body.value.Object? && "signal" in body.value.fields
           && FromJson(body.value.fields["signal"]).Some? then
        Replay(json, events[1..], FromJson(body.value.fields["signal"]).value)
      else Replay(json, events[1..], current)
  }

  lemma ReplayChunk(json: Json.Codec, v: Json.Value, rest: seq<SseEvent>, current: Signal)
    requires json.Faithful()
    ensures Replay(json, [ChunkEvent(json, v)] + rest, current) == [StreamChunk(v, current)] + Replay(json, rest, current)
  {
    assert ([ChunkEvent(json, v)] + rest)[1..] == rest;
  }

  lemma ReplaySignal(json: Json.Codec, signal: Signal, rest: seq<SseEvent>, current: Signal)
    requires json.Faithful()
    ensures Replay(json, [SignalEvent(json, signal)] + rest, current) == Replay(json, rest, signal)
  {
    assert ([SignalEvent(json, signal)] + rest)[1..] == rest;
    assert json.parse(SignalEvent(json, signal).data) == Some(SignalBody(signal));
  }

  /** The delta encoding loses nothing: every delivered chunk is recovered with its signal. */
  lemma {:induction false} ReplayRecovers(json: Json.Codec, flow: seq<FlowItem>, current: Signal)
    requires json.Faithful()
    ensures Replay(json, Emit(json, flow, current), current) == Delivered(flow)
    decreases |flow|
  {
    if flow != [] && flow[0].Ok? {
      var chunk := flow[0].value;
      var tail := if chunk.signal == Halt then []
                  else [ChunkEvent(json, chunk.data)] + Emit(json, flow[1..], chunk.signal);
      if chunk.signal != current {
        ReplaySignal(json, chunk.signal, tail, current);
      } else {
        assert [] + tail == tail;
      }
      if chunk.signal != Halt {
        ReplayChunk(json, chunk.data, Emit(json, flow[1..], chunk.signal), chunk.signal);
        ReplayRecovers(json, flow[1..], chunk.signal);
      }
    }
  }

  /** The signals that the flow's events announce, in order. */
  function Announced(flow: seq<FlowItem>, current: Signal): seq<Signal>
    decreases |flow|
  {
    if flow == [] || flow[0].Err? then []
    else
      var signal := flow[0].value.signal;
      (if signal == current then [] else [signal]) +
      if signal == Halt then [] else Announced(flow[1..], signal)
  }

  function SignalEvents(events: seq<SseEvent>): seq<SseEvent> {
    if events == [] then []
    else (if events[0].name == "backpressure" then [events[0]] else []) + SignalEvents(events[1..])
  }

  function AsEvents(json: Json.Codec, signals: seq<Signal>): seq<SseEvent> {
    if signals == [] then [] else [SignalEvent(json, signals[0])] + AsEvents(json, signals[1..])
  }

  ghost predicate ConsecutiveDiffer(signals: seq<Signal>) {
    forall k :: 0 < k < |signals| ==> signals[k - 1] != signals[k]
  }

  lemma {:induction false} SignalEventsConcat(a: seq<SseEvent>, b: seq<SseEvent>)
    ensures SignalEvents(a + b) == SignalEvents(a) + SignalEvents(b)
  {
    if a == [] {
      assert a + b == b;
    } else {
      var event, rest := a[0], a[1..];
      var own := if event.name == "backpressure" then [event] else [];
      assert a == [event] + rest && a + b == [event] + (rest + b);
      assert ([event] + (rest + b))[1..] == rest + b;
      SignalEventsConcat(rest, b);
      Assoc(own, SignalEvents(rest), SignalEvents(b));
    }
  }

  /** The signal events are exactly the changes of state, starting from the implicit one. */
  lemma {:induction false} SignalsAreChanges(json: Json.Codec, flow: seq<FlowItem>, current: Signal)
    ensures SignalEvents(Emit(json, flow, current)) == AsEvents(json, Announced(flow, current))
    ensures ConsecutiveDiffer([current] + Announced(flow, current))
    decreases |flow|
  {
    if flow != [] && flow[0].Ok? {
      var chunk := flow[0].value;
      var change := Change(json, current, chunk.signal);
      var announced := if chunk.signal == Halt then [] else Announced(flow[1..], chunk.signal);
      var tail := if chunk.signal == Halt then []
                  else [ChunkEvent(json, chunk.data)] + Emit(json, flow[1..], chunk.signal);
      SignalEventsConcat(change, tail);
      if chunk.signal != Halt {
        SignalsAreChanges(json, flow[1..], chunk.signal);
        assert tail[1..] == Emit(json, flow[1..], chunk.signal);
        assert [] + SignalEvents(tail[1..]) == SignalEvents(tail[1..]);
      }
      assert SignalEvents(tail) == AsEvents(json, announced);
      if chunk.signal == current {
        assert Announced(flow, current) == announced;
      } else {
        assert Announced(flow, current) == [chunk.signal] + announced;
        assert ([chunk.signal] + announced)[1..] == announced;
        assert SignalEvents(change) == [SignalEvent(json, chunk.signal)];
        var all := [current] + ([chunk.signal] + announced);
        forall k | 0 < k < |all| ensures all[k - 1] != all[k] {
          if k > 1 {
            assert all[k - 1] == ([chunk.signal] + announced)[k - 2];
            assert all[k] == ([chunk.signal] + announced)[k - 1];
          }
        }
      }
    }
  }

  predicate Terminal(json: Json.Codec, event: SseEvent) {
    event == SseEvent("end", "{}") || event.name == "error" || event == SignalEvent(json, Halt)
  }

  ghost predicate EndsOnce(json: Json.Codec, events: seq<SseEvent>) {
    && events != []
    && Terminal(json, events[|events| - 1])
    && forall k :: 0 <= k < |events| - 1 ==> !Terminal(json, events[k])
  }

  lemma HaltIsItsOwnEvent(json: Json.Codec, signal: Signal)
    requires json.Faithful()
    ensures SignalEvent(json, signal) == SignalEvent(json, Halt) <==> signal == Halt
  {
    assert json.parse(json.toText(SignalBody(Halt))) == Some(SignalBody(Halt));
    assert json.parse(json.toText(SignalBody(signal))) == Some(SignalBody(signal));
    assert SignalBody(signal).fields["signal"] == Json.String(WireName(signal));
    assert SignalBody(Halt).fields["signal"] == Json.String(WireName(Halt));
  }

  lemma EndsOnceAfter(json: Json.Codec, head: seq<SseEvent>, rest: seq<SseEvent>)
    requires EndsOnce(json, rest)
    requires forall k :: 0 <= k < |head| ==> !Terminal(json, head[k])
    ensures EndsOnce(json, head + rest)
  {
  }

  lemma {:induction false} EmitEndsOnce(json: Json.Codec, flow: seq<FlowItem>, current: Signal)
    requires json.Faithful() && current != Halt
    ensures EndsOnce(json, Emit(json, flow, current))
    decreases |flow|
  {
    if flow != [] && flow[0].Ok? {
      var chunk, rest := flow[0].value, flow[1..];
      HaltIsItsOwnEvent(json, chunk.signal);
      if chunk.signal != Halt {
        EmitEndsOnce(json, rest, chunk.signal);
        EndsOnceAfter(json, [ChunkEvent(json, chunk.data)], Emit(json, rest, chunk.signal));
        EndsOnceAfter(json, Change(json, current, chunk.signal),
                      [ChunkEvent(json, chunk.data)] + Emit(json, rest, chunk.signal));
      } else {
        assert Emit(json, flow, current) == [SignalEvent(json, Halt)];
      }
    }
  }

  /** A finished trace has exactly one terminal event, its last, iff the dispatch call itself succeeded. */
  lemma OneTerminalIff(json: Json.Codec, dispatched: Result<seq<FlowItem>, DispatchError>)
    requires json.Faithful()
    ensures EndsOnce(json, Produced(json, dispatched)) <==> dispatched.Ok?
  {
    if dispatched.Ok? {
      EmitEndsOnce(json, dispatched.value, Continue);
    } else {
      assert Terminal(json, Produced(json, dispatched)[0]);
    }
  }
}
