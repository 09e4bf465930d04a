/**
 The streamed-intent pipeline end to end: adapter flow, event producer, bytes in arbitrary
 chunks, incremental parser, client.
 */
module Pipeline {
  import opened Wrappers
  import opened Segments
  import opened Backpressure
  import opened Sse
  import opened StreamClient
  import StreamIntent
  import SseWriter
  import Json

  type Dispatched = Result<seq<StreamIntent.FlowItem>, StreamIntent.DispatchError>

  /** The payloads of the delivered chunks, as the caller receives them. */
  function AsPayloads(chunks: seq<StreamChunk>): seq<ClientItem> {
    if chunks == [] then [] else [Payload(chunks[0].data)] + AsPayloads(chunks[1..])
  }

  /** What the caller is told of an adapter's error. */
  function Envelope(e: StreamIntent.DispatchError): Json.Value {
    Json.Object(map["status" := Json.Number(e.status, 0), "message" := Json.String(e.message)])
  }

  /** How the caller learns why the flow stopped; a clean end is silent. */
  function Ending(json: Json.Codec, flow: seq<StreamIntent.FlowItem>): seq<ClientItem>
    decreases |flow|
  {
    if flow == [] then []
    else
      match flow[0]
      case Err(e) => [StreamError(json.toText(Envelope(e)))]
      case Ok(chunk) => if chunk.signal == Halt then [StreamHalted] else Ending(json, flow[1..])
  }

  function Outcome(json: Json.Codec, dispatched: Dispatched): seq<ClientItem> {
    match dispatched
    case Err(e) => [StreamError(json.toText(Envelope(e)))]
    case Ok(flow) => AsPayloads(StreamIntent.Delivered(flow)) + Ending(json, flow)
  }

  datatype Stop = Exhausted | Halted | Broken(error: StreamIntent.DispatchError)

  /** Why a flow stops: at its first error or halt, or because there is nothing more. */
  function StopOf(flow: seq<StreamIntent.FlowItem>): Stop {
    if flow == [] then Exhausted
    else
      match flow[0]
      case Err(e) => Broken(e)
      case Ok(chunk) => if chunk.signal == Halt then Halted else StopOf(flow[1..])
  }

  /** The text of a stream error, read as JSON, is an object with exactly the error's status and message. */
  ghost predicate Tells(json: Json.Codec, item: ClientItem, e: StreamIntent.DispatchError) {
    && item.StreamError?
    && var told := json.parse(item.details);
    && told.Some? && told.value.Object?
    && told.value.fields.Keys == {"status", "message"}
    && told.value.fields["status"] == Json.Number(e.status, 0)
    && told.value.fields["message"] == Json.String(e.message)
  }

  ghost predicate Explains(json: Json.Codec, last: seq<ClientItem>, stop: Stop) {
    match stop
    case Exhausted => last == []
    case Halted => last == [StreamHalted]
    case Broken(e) => |last| == 1 && Tells(json, last[0], e)
  }

  /** The delivered payloads, in order, and then an explanation of why the flow stopped. */
  ghost predicate IsOutcome(json: Json.Codec, out: seq<ClientItem>, dispatched: Dispatched) {
    match dispatched
    case Err(e) => Explains(json, out, Broken(e))
    case Ok(flow) =>
      var payloads := AsPayloads(StreamIntent.Delivered(flow));
      payloads <= out && Explains(json, out[|payloads|..], StopOf(flow))
  }

  lemma {:induction false} EndingExplains(json: Json.Codec, flow: seq<StreamIntent.FlowItem>)
    requires json.Faithful()
    ensures Explains(json, Ending(json, flow), StopOf(flow))
    decreases |flow|
  {
    if flow != [] {
      match flow[0] {
        case Err(e) => assert json.parse(json.toText(Envelope(e))) == Some(Envelope(e));
        case Ok(chunk) =>
          if chunk.signal != Halt {
            EndingExplains(json, flow[1..]);
          }
      }
    }
  }

  lemma OutcomeIsOutcome(json: Json.Codec, dispatched: Dispatched)
    requires json.Faithful()
    ensures IsOutcome(json, Outcome(json, dispatched), dispatched)
  {
    match dispatched {
      case Err(e) => assert json.parse(json.toText(Envelope(e))) == Some(Envelope(e));
      case Ok(flow) =>
        EndingExplains(json, flow);
        var payloads := AsPayloads(StreamIntent.Delivered(flow));
        assert (payloads + Ending(json, flow))[|payloads|..] == Ending(json, flow);
    }
  }

  /** The events among the parts of a response body; keep-alives may stand anywhere between them. */
  function EventsOf(parts: seq<SseWriter.Part>): seq<StreamIntent.SseEvent> {
    if parts == [] then []
    else
      (match parts[0]
       case Event(name, data) => [StreamIntent.SseEvent(name, data)]
       case KeepAlive(_) => [])
      + EventsOf(parts[1..])
  }

  function AsItem(json: Json.Codec, event: StreamIntent.SseEvent): Item {
    var data := if json.parse(event.data).Some? then json.parse(event.data).value else Json.String(event.data);
    Ok(ServerEvent(event.name, data, None))
  }

  function AsItems(json: Json.Codec, events: seq<StreamIntent.SseEvent>): seq<Item> {
    if events == [] then [] else [AsItem(json, events[0])] + AsItems(json, events[1..])
  }

  /** A response body that carries the events of a dispatch, with any keep-alives in between. */
  ghost predicate Carries(json: Json.Codec, dispatched: Dispatched, parts: seq<SseWriter.Part>) {
    && EventsOf(parts) == StreamIntent.Produced(json, dispatched)
    && forall k :: 0 <= k < |parts| && parts[k].KeepAlive? ==> '\n' !in parts[k].comment
  }

  // ---- Producer and wire ------------------------------------------------------------

  ghost predicate Plain(event: StreamIntent.SseEvent) {
    && '\n' !in event.name && '\r' !in event.name
    && '\r' !in event.data
  }

  ghost predicate AllPlain(events: seq<StreamIntent.SseEvent>) {
    forall k :: 0 <= k < |events| ==> Plain(events[k])
  }

  lemma EventsArePlain(json: Json.Codec)
    requires json.Faithful()
    ensures Plain(StreamIntent.END)
    ensures forall v :: Plain(StreamIntent.ChunkEvent(json, v))
    ensures forall e :: Plain(StreamIntent.ErrorEvent(json, e))
    ensures forall signal :: Plain(StreamIntent.SignalEvent(json, signal))
  {
  }

  lemma AllPlainConcat(a: seq<StreamIntent.SseEvent>, b: seq<StreamIntent.SseEvent>)
    ensures AllPlain(a + b) <==> AllPlain(a) && AllPlain(b)
  {
    assert forall k :: 0 <= k < |a| ==> (a + b)[k] == a[k];
    assert forall k :: 0 <= k < |b| ==> (a + b)[|a| + k] == b[k];
  }

  lemma {:induction false} EmittedArePlain(json: Json.Codec, flow: seq<StreamIntent.FlowItem>, current: Signal)
    requires json.Faithful()
    ensures AllPlain(StreamIntent.Emit(json, flow, current))
    decreases |flow|
  {
    EventsArePlain(json);
    if flow != [] && flow[0].Ok? && flow[0].value.signal != Halt {
      var chunk, rest := flow[0].value, flow[1..];
      EmittedArePlain(json, rest, chunk.signal);
      var tail := [StreamIntent.ChunkEvent(json, chunk.data)] + StreamIntent.Emit(json, rest, chunk.signal);
      AllPlainConcat([StreamIntent.ChunkEvent(json, chunk.data)], StreamIntent.Emit(json, rest, chunk.signal));
      AllPlainConcat(StreamIntent.Change(json, current, chunk.signal), tail);
    }
  }

  lemma ProducedArePlain(json: Json.Codec, dispatched: Dispatched)
    requires json.Faithful()
    ensures AllPlain(StreamIntent.Produced(json, dispatched))
  {
    EventsArePlain(json);
    if dispatched.Ok? {
      EmittedArePlain(json, dispatched.value, Continue);
    }
  }

  lemma {:induction false} PlainPartsAreWellFormed(parts: seq<SseWriter.Part>)
    requires AllPlain(EventsOf(parts))
    requires forall k :: 0 <= k < |parts| && parts[k].KeepAlive? ==> '\n' !in parts[k].comment
    ensures forall k :: 0 <= k < |parts| ==> SseWriter.WellFormed(parts[k])
  {
    if parts != [] {
      var p, rest := parts[0], parts[1..];
      var own := if p.Event? then [StreamIntent.SseEvent(p.name, p.data)] else [];
      assert EventsOf(parts) == own + EventsOf(rest);
      AllPlainConcat(own, EventsOf(rest));
      PlainPartsAreWellFormed(rest);
      assert p.Event? ==> Plain(own[0]);
      assert forall k :: 1 <= k < |parts| ==> parts[k] == rest[k - 1];
    }
  }

  lemma {:induction false} ItemsOfParts(json: Json.Codec, parts: seq<SseWriter.Part>)
    ensures SseWriter.ReceivedItems(json, parts) == AsItems(json, EventsOf(parts))
  {
    if parts != [] {
      ItemsOfParts(json, parts[1..]);
      var rest := EventsOf(parts[1..]);
      match parts[0] {
        case Event(name, data) => AsItemsCons(json, StreamIntent.SseEvent(name, data), rest);
        case KeepAlive(_) => assert [] + rest == rest;
      }
    }
  }

  /** The items a parser reads from the body are the producer's events. */
  lemma BodyRoundTrip(json: Json.Codec, dispatched: Dispatched, parts: seq<SseWriter.Part>)
    requires json.Faithful() && Carries(json, dispatched, parts)
    ensures ParseInput(json, SseWriter.Wire(parts)) == AsItems(json, StreamIntent.Produced(json, dispatched))
  {
    ProducedArePlain(json, dispatched);
    PlainPartsAreWellFormed(parts);
    SseWriter.WireRoundTrip(json, parts);
    ItemsOfParts(json, parts);
  }

  // ---- Producer and client ----------------------------------------------------------

  lemma SignalIsRead(json: Json.Codec, signal: Signal)
    requires json.Faithful()
    ensures var item := AsItem(json, StreamIntent.SignalEvent(json, signal));
      item.value.name == "backpressure" && SignalOf(item.value.data) == signal
  {
    assert json.parse(json.toText(StreamIntent.SignalBody(signal))) == Some(StreamIntent.SignalBody(signal));
  }

  lemma ErrorIsRead(json: Json.Codec, e: StreamIntent.DispatchError, rest: seq<StreamIntent.SseEvent>)
    requires json.Faithful()
    ensures Mapped(json, AsItems(json, [StreamIntent.ErrorEvent(json, e)] + rest))
         == [StreamError(json.toText(Envelope(e)))]
  {
    var event := StreamIntent.ErrorEvent(json, e);
    assert json.parse(event.data) == Some(Envelope(e));
    AsItemsCons(json, event, rest);
    MappedCons(json, AsItem(json, event), AsItems(json, rest));
  }

  lemma AsItemsCons(json: Json.Codec, event: StreamIntent.SseEvent, rest: seq<StreamIntent.SseEvent>)
    ensures AsItems(json, [event] + rest) == [AsItem(json, event)] + AsItems(json, rest)
  {
    assert ([event] + rest)[1..] == rest;
  }

  lemma ChangeIsRead(json: Json.Codec, current: Signal, signal: Signal, rest: seq<StreamIntent.SseEvent>)
    requires json.Faithful()
    ensures Mapped(json, AsItems(json, StreamIntent.Change(json, current, signal) + rest))
         == if signal == current then Mapped(json, AsItems(json, rest))
            else if signal == Halt then [StreamHalted]
            else Mapped(json, AsItems(json, rest))
  {
    if signal == current {
      assert [] + rest == rest;
    } else {
      var event := StreamIntent.SignalEvent(json, signal);
      SignalIsRead(json, signal);
      AsItemsCons(json, event, rest);
      MappedCons(json, AsItem(json, event), AsItems(json, rest));
    }
  }

  lemma ChunkIsRead(json: Json.Codec, data: Json.Value, rest: seq<StreamIntent.SseEvent>)
    requires json.Faithful()
    ensures Mapped(json, AsItems(json, [StreamIntent.ChunkEvent(json, data)] + rest))
         == [Payload(data)] + Mapped(json, AsItems(json, rest))
  {
    var event := StreamIntent.ChunkEvent(json, data);
    assert json.parse(event.data) == Some(data);
    AsItemsCons(json, event, rest);
    MappedCons(json, AsItem(json, event), AsItems(json, rest));
  }

  lemma {:induction false} EmittedAreRead(json: Json.Codec, flow: seq<StreamIntent.FlowItem>, current: Signal)
    requires json.Faithful() && current != Halt
    ensures Mapped(json, AsItems(json, StreamIntent.Emit(json, flow, current)))
         == AsPayloads(StreamIntent.Delivered(flow)) + Ending(json, flow)
    decreases |flow|
  {
    if flow == [] {
      AsItemsCons(json, StreamIntent.END, []);
      MappedCons(json, AsItem(json, StreamIntent.END), []);
      assert [StreamIntent.END] + [] == [StreamIntent.END];
    } else if flow[0].Err? {
      ErrorIsRead(json, flow[0].error, []);
      assert [StreamIntent.ErrorEvent(json, flow[0].error)] + [] == [StreamIntent.ErrorEvent(json, flow[0].error)];
    } else {
      var chunk, rest := flow[0].value, flow[1..];
      if chunk.signal == Halt {
        ChangeIsRead(json, current, Halt, []);
      } else {
        var emitted := StreamIntent.Emit(json, rest, chunk.signal);
        ChangeIsRead(json, current, chunk.signal, [StreamIntent.ChunkEvent(json, chunk.data)] + emitted);
        ChunkIsRead(json, chunk.data, emitted);
        EmittedAreRead(json, rest, chunk.signal);
        assert StreamIntent.Delivered(flow)[1..] == StreamIntent.Delivered(rest);
        Assoc([Payload(chunk.data)], AsPayloads(StreamIntent.Delivered(rest)), Ending(json, rest));
      }
    }
  }

  lemma ProducedAreRead(json: Json.Codec, dispatched: Dispatched)
    requires json.Faithful()
    ensures Mapped(json, AsItems(json, StreamIntent.Produced(json, dispatched))) == Outcome(json, dispatched)
  {
    match dispatched {
      case Ok(flow) => EmittedAreRead(json, flow, Continue);
      case Err(e) =>
        assert StreamIntent.Produced(json, dispatched) == [StreamIntent.ErrorEvent(json, e)] + [StreamIntent.END];
        ErrorIsRead(json, e, [StreamIntent.END]);
    }
  }

  // ---- End to end -------------------------------------------------------------------

  /**
   Whatever the adapter does, however the body is cut into chunks and wherever keep-alives
   fall, the caller sees the delivered payloads in order and then why the flow stopped.
   */
  lemma EndToEnd(json: Json.Codec, dispatched: Dispatched, parts: seq<SseWriter.Part>, feed: seq<Upstream>)
    requires json.Faithful() && Carries(json, dispatched, parts)
    requires NoFailure(feed) && Received(feed) == SseWriter.Wire(parts)
    ensures Mapped(json, Remaining(json, feed, [], EMPTY_BLOCK)) == Outcome(json, dispatched)
    ensures IsOutcome(json, Mapped(json, Remaining(json, feed, [], EMPTY_BLOCK)), dispatched)
  {
    ChunkingIndependence(json, feed);
    BodyRoundTrip(json, dispatched, parts);
    ProducedAreRead(json, dispatched);
    OutcomeIsOutcome(json, dispatched);
  }

  /** The same, through the parser object and the client loop. */
  method Stream(json: Json.Codec, dispatched: Dispatched, ghost parts: seq<SseWriter.Part>, feed: seq<Upstream>)
    returns (out: seq<ClientItem>)
    requires json.Faithful() && Carries(json, dispatched, parts)
    requires NoFailure(feed) && Received(feed) == SseWriter.Wire(parts)
    ensures out == Outcome(json, dispatched) && IsOutcome(json, out, dispatched)
  {
    var events := new SseStream(json, feed);
    EndToEnd(json, dispatched, parts, feed);
    out := DispatchStreaming(events);
  }

  /** A body cut after any byte gives a prefix of the outcome: nothing partial, nothing reordered. */
  lemma TruncationSafety(json: Json.Codec, dispatched: Dispatched, parts: seq<SseWriter.Part>,
                         cut: nat, feed: seq<Upstream>)
    requires json.Faithful() && Carries(json, dispatched, parts)
    requires cut <= |SseWriter.Wire(parts)|
    requires NoFailure(feed) && Received(feed) == SseWriter.Wire(parts)[..cut]
    ensures Mapped(json, Remaining(json, feed, [], EMPTY_BLOCK)) <= Outcome(json, dispatched)
  {
    var wire := SseWriter.Wire(parts);
    ChunkingIndependence(json, feed);
    TruncationIsPrefix(json, wire, cut);
    MappedPrefix(json, ParseInput(json, wire[..cut]), ParseInput(json, wire));
    BodyRoundTrip(json, dispatched, parts);
    ProducedAreRead(json, dispatched);
  }

  lemma {:induction false} PayloadsPrefix(a: seq<ClientItem>, b: seq<ClientItem>)
    requires a <= b
    ensures Payloads(a) <= Payloads(b)
  {
    if a != [] {
      assert a[0] == b[0] && a[1..] <= b[1..];
      PayloadsPrefix(a[1..], b[1..]);
    }
  }

  lemma {:induction false} PayloadsOf(chunks: seq<StreamChunk>, last: seq<ClientItem>)
    requires |last| <= 1 && forall item :: item in last ==> !item.Payload?
    ensures var payloads := Payloads(AsPayloads(chunks) + last);
      |payloads| == |chunks| && forall k :: 0 <= k < |chunks| ==> payloads[k] == chunks[k].data
  {
    if chunks == [] {
      assert AsPayloads(chunks) + last == last;
      if last != [] {
        assert last[0] in last && last[1..] == [];
      }
    } else {
      var items := AsPayloads(chunks) + last;
      assert items[0] == Payload(chunks[0].data) && items[1..] == AsPayloads(chunks[1..]) + last;
      PayloadsOf(chunks[1..], last);
    }
  }

  lemma AfterFailure(json: Json.Codec, feed: seq<Upstream>, error: ProtocolError, more: seq<Upstream>)
    returns (later: seq<Item>)
    requires NoFailure(feed)
    ensures Remaining(json, feed + [Failed(error)] + more, [], EMPTY_BLOCK)
         == ParseInput(json, Received(feed)) + [Err(error)] + later
  {
    var all := Remaining(json, feed + [Failed(error)] + more, [], EMPTY_BLOCK);
    var items := ParseInput(json, Received(feed));
    FailureIsInPlace(json, feed, error, more);
    later := all[|items| + 1..];
    assert all == items + [Err(error)] + later;
  }

  /** The same when the cut is reported as a transport failure, whatever the connection does next. */
  lemma DroppedConnectionSafety(json: Json.Codec, dispatched: Dispatched, parts: seq<SseWriter.Part>,
                                cut: nat, feed: seq<Upstream>, error: ProtocolError, more: seq<Upstream>)
    requires json.Faithful() && Carries(json, dispatched, parts)
    requires cut <= |SseWriter.Wire(parts)|
    requires NoFailure(feed) && Received(feed) == SseWriter.Wire(parts)[..cut]
    ensures var out := Mapped(json, Remaining(json, feed + [Failed(error)] + more, [], EMPTY_BLOCK));
      && Payloads(out) <= Payloads(Outcome(json, dispatched))
      && (out <= Outcome(json, dispatched) || (out != [] && out[|out| - 1] == Failure(error)
                                              && out[..|out| - 1] <= Outcome(json, dispatched)))
  {
    var items := ParseInput(json, Received(feed));
    ChunkingIndependence(json, feed);
    TruncationSafety(json, dispatched, parts, cut, feed);
    var later := AfterFailure(json, feed, error, more);
    MappedFailure(json, items, error, later);
    PayloadsPrefix(Mapped(json, items), Outcome(json, dispatched));
  }

  // ---- Which cuts are noticed -------------------------------------------------------

  /** How many parts there are up to the last one that adds something to what the caller sees. */
  function Needed(json: Json.Codec, parts: seq<SseWriter.Part>): nat {
    if parts == [] then 0
    else
      var more := Needed(json, parts[1..]);
      var skipped := if more == 0 then 0 else 1 + more;
      match parts[0]
      case KeepAlive(_) => skipped
      case Event(name, data) =>
        match React(json, AsItem(json, StreamIntent.SseEvent(name, data)))
        case Yield(_) => 1 + more
        case Stop(last) => if last == [] then 0 else 1
        case Ignore => skipped
  }

  function Seen(json: Json.Codec, parts: seq<SseWriter.Part>): seq<ClientItem> {
    Mapped(json, SseWriter.ReceivedItems(json, parts))
  }

  lemma SeenCons(json: Json.Codec, p: SseWriter.Part, rest: seq<SseWriter.Part>)
    ensures p.KeepAlive? ==> Seen(json, [p] + rest) == Seen(json, rest)
    ensures p.Event? ==>
      var r := React(json, AsItem(json, StreamIntent.SseEvent(p.name, p.data)));
      Seen(json, [p] + rest) ==
        if r.Yield? then [r.item] + Seen(json, rest) else if r.Stop? then r.last else Seen(json, rest)
  {
    assert ([p] + rest)[1..] == rest;
    if p.Event? {
      MappedCons(json, AsItem(json, StreamIntent.SseEvent(p.name, p.data)), SseWriter.ReceivedItems(json, rest));
    } else {
      assert [] + SseWriter.ReceivedItems(json, rest) == SseWriter.ReceivedItems(json, rest);
    }
  }

  lemma SameTails(a: seq<ClientItem>, b: seq<ClientItem>)
    ensures forall x :: [x] + a == [x] + b <==> a == b
  {
    forall x | [x] + a == [x] + b
      ensures a == b
    {
      assert ([x] + a)[1..] == a && ([x] + b)[1..] == b;
    }
  }

  lemma {:induction false} NeededIff(json: Json.Codec, parts: seq<SseWriter.Part>, whole: nat)
    requires whole <= |parts|
    ensures Needed(json, parts) <= |parts|
    ensures Seen(json, parts[..whole]) == Seen(json, parts) <==> Needed(json, parts) <= whole
    decreases |parts|
  {
    if parts != [] {
      var p, rest := parts[0], parts[1..];
      assert parts == [p] + rest;
      SeenCons(json, p, rest);
      NeededIff(json, rest, if whole == 0 then 0 else whole - 1);
      if whole == 0 {
        assert parts[..0] == [] && rest[..0] == [];
      } else {
        assert parts[..whole] == [p] + rest[..whole - 1];
        SeenCons(json, p, rest[..whole - 1]);
        SameTails(Seen(json, rest[..whole - 1]), Seen(json, rest));
      }
    }
  }

  /** How many parts are whole in the first `cut` bytes. */
  lemma {:induction false} WholeParts(parts: seq<SseWriter.Part>, cut: nat) returns (whole: nat)
    requires cut <= |SseWriter.Wire(parts)|
    ensures whole <= |parts| && |SseWriter.Wire(parts[..whole])| <= cut
    ensures whole < |parts| ==> cut < |SseWriter.Wire(parts[..whole + 1])|
  {
    whole := |parts|;
    assert parts[..whole] == parts;
    while |SseWriter.Wire(parts[..whole])| > cut
      invariant whole <= |parts|
      invariant whole < |parts| ==> cut < |SseWriter.Wire(parts[..whole + 1])|
      decreases whole
    {
      assert whole > 0 by {
        assert SseWriter.Wire([]) == [];
      }
      whole := whole - 1;
    }
  }

  lemma {:induction false} WireGrows(parts: seq<SseWriter.Part>, i: nat, j: nat)
    requires i <= j <= |parts|
    ensures |SseWriter.Wire(parts[..i])| <= |SseWriter.Wire(parts[..j])|
    decreases |parts|
  {
    if i > 0 {
      var p, rest := parts[0], parts[1..];
      assert parts[..i] == [p] + rest[..i - 1] && parts[..j] == [p] + rest[..j - 1];
      SseWriter.WireOfPart(p, rest[..i - 1]);
      SseWriter.WireOfPart(p, rest[..j - 1]);
      WireGrows(rest, i - 1, j - 1);
    } else {
      assert SseWriter.Wire(parts[..0]) == [];
    }
  }

  /**
   A body cut after `cut` bytes, however it is cut into chunks, gives the whole outcome
   exactly when the last part that adds something is whole in it. Losing an `end` event or
   what follows the last payload is never noticed.
   */
  lemma CutUnnoticedIff(json: Json.Codec, dispatched: Dispatched, parts: seq<SseWriter.Part>,
                        cut: nat, feed: seq<Upstream>)
    requires json.Faithful() && Carries(json, dispatched, parts)
    requires cut <= |SseWriter.Wire(parts)|
    requires NoFailure(feed) && Received(feed) == SseWriter.Wire(parts)[..cut]
    ensures Needed(json, parts) <= |parts|
    ensures Mapped(json, Remaining(json, feed, [], EMPTY_BLOCK)) == Outcome(json, dispatched)
      <==> |SseWriter.Wire(parts[..Needed(json, parts)])| <= cut
  {
    var needed := Needed(json, parts);
    var whole := WholeParts(parts, cut);
    ChunkingIndependence(json, feed);
    BodyRoundTrip(json, dispatched, parts);
    ProducedAreRead(json, dispatched);
    ProducedArePlain(json, dispatched);
    PlainPartsAreWellFormed(parts);
    SseWriter.CutItems(json, parts, whole, cut);
    SseWriter.WireRoundTrip(json, parts);
    NeededIff(json, parts, whole);
    if needed <= whole {
      WireGrows(parts, needed, whole);
    } else {
      WireGrows(parts, whole + 1, needed);
    }
  }
}
