/**
 The event-mapping loop of `dispatch_streaming` in `ferridis-client/src/client.rs`:
 server-sent events become the results a caller of a streamed intent sees.
 */
module StreamClient {
  import opened Wrappers
  import opened Backpressure
  import opened Segments
  import opened Sse
  import Json

  datatype ClientItem =
    | Payload(data: Json.Value)
    | StreamError(details: string)
    | StreamHalted
    | Failure(error: ProtocolError)

  function Details(json: Json.Codec, data: Json.Value): string {
    match data
    case String(s) => s
    case _ => json.toText(data)
  }

  /** A missing or unreadable signal counts as `Continue`. */
  function SignalOf(data: Json.Value): Signal {
    if data.Object? && "signal" in data.fields then
      match FromJson(data.fields["signal"])
      case Some(signal) => signal
      case None => Continue
    else Continue
  }

  /** What one event does to the caller's stream. */
  datatype Reaction = Yield(item: ClientItem) | Stop(last: seq<ClientItem>) | Ignore

  function React(json: Json.Codec, item: Item): Reaction {
    if item.Err? then Stop([Failure(item.error)])
    else
      var ev := item.value;
      if ev.name == "chunk" then Yield(Payload(ev.data))
      else if ev.name == "end" then Stop([])
      else if ev.name == "error" then Stop([StreamError(Details(json, ev.data))])
      else if ev.name == "backpressure" && SignalOf(ev.data) == Halt then Stop([StreamHalted])
      else Ignore
  }

  function Mapped(json: Json.Codec, items: seq<Item>): seq<ClientItem>
    decreases |items|
  {
    if items == [] then []
    else
      match React(json, items[0])
      case Yield(item) => [item] + Mapped(json, items[1..])
      case Stop(last) => last
      case Ignore => Mapped(json, items[1..])
  }

  lemma MappedCons(json: Json.Codec, item: Item, rest: seq<Item>)
    ensures Mapped(json, [item] + rest) ==
      (var r := React(json, item);
       if r.Yield? then [r.item] + Mapped(json, rest)
       else if r.Stop? then r.last
       else Mapped(json, rest))
  {
    assert ([item] + rest)[1..] == rest;
  }

  lemma MappedStep(json: Json.Codec, out: seq<ClientItem>, item: Item, rest: seq<Item>)
    ensures out + Mapped(json, [item] + rest) ==
      (var r := React(json, item);
       if r.Yield? then out + [r.item] + Mapped(json, rest)
       else if r.Stop? then out + r.last
       else out + Mapped(json, rest))
  {
    MappedCons(json, item, rest);
  }

  /** Polls the parser until it ends or an event ends the stream. */
  method DispatchStreaming(events: SseStream) returns (out: seq<ClientItem>)
    modifies events
    ensures out == Mapped(events.json, old(events.Future()))
  {
    out := [];
    while true
      invariant out + Mapped(events.json, events.Future()) == Mapped(events.json, old(events.Future()))
      decreases |events.inner|, |events.buffer|
    {
      label Polling:
      var polled := events.PollNext();
      if polled.NotReady? {
        continue;
      }
      if polled.item.None? {
        return;
      }
      MappedStep(events.json, out, polled.item.value, events.Future());
      match polled.item.value {
        case Err(e) =>
          out := out + [Failure(e)];
          return;
        case Ok(ev) =>
          if ev.name == "chunk" {
            out := out + [Payload(ev.data)];
          } else if ev.name == "end" {
            return;
          } else if ev.name == "error" {
            out := out + [StreamError(Details(events.json, ev.data))];
            return;
          } else if ev.name == "backpressure" {
            if SignalOf(ev.data) == Halt {
              out := out + [StreamHalted];
              return;
            }
          }
      }
    }
  }

  // ---- What the loop makes of a list of events --------------------------------------

  /** Only the word `halt`, as a string or as an externally tagged variant, halts the stream. */
  lemma HaltsIff(data: Json.Value)
    ensures SignalOf(data) == Halt <==>
      && data.Object? && "signal" in data.fields
      && (data.fields["signal"] == Json.String("halt")
          || data.fields["signal"] == Json.Object(map["halt" := Json.Null]))
  {
    if data.Object? && "signal" in data.fields && data.fields["signal"] == Json.Object(map["halt" := Json.Null]) {
      assert "halt" in data.fields["signal"].fields;
      assert "halt" !in map["continue" := Json.Null] && "halt" !in map["slow-down" := Json.Null];
    }
  }

  /** Items after which the caller sees nothing more. */
  predicate Last(item: Item) {
    || item.Err?
    || item.value.name == "end"
    || item.value.name == "error"
    || (item.value.name == "backpressure" && SignalOf(item.value.data) == Halt)
  }

  /** What the caller learns from such an item; an error's string is told as it is, other data as JSON text. */
  ghost predicate LastWord(json: Json.Codec, item: Item, out: seq<ClientItem>)
    requires Last(item)
  {
    match item
    case Err(e) => out == [Failure(e)]
    case Ok(ev) =>
      && (ev.name == "end" ==> out == [])
      && (ev.name == "backpressure" ==> out == [StreamHalted])
      && (ev.name == "error" && ev.data.String? ==> out == [StreamError(ev.data.s)])
      && (ev.name == "error" && !ev.data.String? ==> out == [StreamError(json.toText(ev.data))])
  }

  function Chunks(items: seq<Item>): seq<ClientItem> {
    if items == [] then []
    else
      (if items[0].Ok? && items[0].value.name == "chunk" then [Payload(items[0].value.data)] else [])
      + Chunks(items[1..])
  }

  /** Before an item that ends it, the stream is the data of its chunk events; every other event is ignored. */
  lemma {:induction false} MappedIsChunks(json: Json.Codec, items: seq<Item>, more: seq<Item>)
    requires forall k :: 0 <= k < |items| ==> !Last(items[k])
    ensures Mapped(json, items + more) == Chunks(items) + Mapped(json, more)
    decreases |items|
  {
    if items == [] {
      assert items + more == more;
    } else {
      var item, rest := items[0], items[1..];
      assert items + more == [item] + (rest + more);
      assert forall k :: 0 <= k < |rest| ==> rest[k] == items[k + 1];
      MappedCons(json, item, rest + more);
      MappedIsChunks(json, rest, more);
      var own := if item.Ok? && item.value.name == "chunk" then [Payload(item.value.data)] else [];
      Assoc(own, Chunks(rest), Mapped(json, more));
    }
  }

  /** An item that ends the stream has the last word, whatever follows it. */
  lemma LastWordIs(json: Json.Codec, item: Item, more: seq<Item>)
    requires Last(item)
    ensures LastWord(json, item, Mapped(json, [item] + more))
  {
    MappedCons(json, item, more);
  }

  /** An event of any other name changes nothing, wherever it comes. */
  lemma {:induction false} OthersAreIgnored(json: Json.Codec, a: seq<Item>, ev: ServerEvent, b: seq<Item>)
    requires ev.name !in {"chunk", "end", "error", "backpressure"}
    ensures Mapped(json, a + [Ok(ev)] + b) == Mapped(json, a + b)
    decreases |a|
  {
    if a == [] {
      assert a + [Ok(ev)] + b == [Ok(ev)] + b && a + b == b;
      MappedCons(json, Ok(ev), b);
    } else {
      var item, rest := a[0], a[1..];
      assert a + [Ok(ev)] + b == [item] + (rest + [Ok(ev)] + b) && a + b == [item] + (rest + b);
      MappedCons(json, item, rest + [Ok(ev)] + b);
      MappedCons(json, item, rest + b);
      OthersAreIgnored(json, rest, ev, b);
    }
  }

  lemma {:induction false} MappedPrefix(json: Json.Codec, a: seq<Item>, b: seq<Item>)
    requires a <= b
    ensures Mapped(json, a) <= Mapped(json, b)
    decreases |a|
  {
    if a != [] {
      assert a[0] == b[0] && a[1..] <= b[1..];
      MappedPrefix(json, a[1..], b[1..]);
    }
  }

  function Payloads(out: seq<ClientItem>): seq<Json.Value> {
    if out == [] then []
    else (if out[0].Payload? then [out[0].data] else []) + Payloads(out[1..])
  }

  /** A transport failure adds at most itself to what the items before it give. */
  lemma {:induction false} MappedFailure(json: Json.Codec, items: seq<Item>, error: ProtocolError, more: seq<Item>)
    ensures var out := Mapped(json, items + [Err(error)] + more);
      out == Mapped(json, items) || out == Mapped(json, items) + [Failure(error)]
    ensures Payloads(Mapped(json, items + [Err(error)] + more)) == Payloads(Mapped(json, items))
    decreases |items|
  {
    if items == [] {
      assert items + [Err(error)] + more == [Err(error)] + more;
      MappedCons(json, Err(error), more);
      assert [Failure(error)][1..] == [];
    } else {
      var item, rest := items[0], items[1..];
      assert items + [Err(error)] + more == [item] + (rest + [Err(error)] + more);
      assert items == [item] + rest;
      MappedCons(json, item, rest);
      MappedCons(json, item, rest + [Err(error)] + more);
      MappedFailure(json, rest, error, more);
    }
  }

  /** A final `end` event adds nothing: the caller cannot tell a clean finish from a closed stream. */
  lemma {:induction false} EndIsSilent(json: Json.Codec, items: seq<Item>, data: Json.Value, id: Option<string>)
    ensures Mapped(json, items + [Ok(ServerEvent("end", data, id))]) == Mapped(json, items)
    decreases |items|
  {
    if items == [] {
      assert items + [Ok(ServerEvent("end", data, id))] == [Ok(ServerEvent("end", data, id))];
    } else {
      var item, rest := items[0], items[1..];
      assert items + [Ok(ServerEvent("end", data, id))] == [item] + (rest + [Ok(ServerEvent("end", data, id))]);
      assert items == [item] + rest;
      MappedCons(json, item, rest);
      MappedCons(json, item, rest + [Ok(ServerEvent("end", data, id))]);
      EndIsSilent(json, rest, data, id);
    }
  }
}
