/** The flow-control signal of `ferridis-protocol/src/backpressure.rs` and its JSON form. */
module Backpressure {
  import opened Wrappers
  import Json

  datatype Signal = Continue | SlowDown | Halt

  datatype StreamChunk = StreamChunk(data: Json.Value, signal: Signal)

  function WireName(signal: Signal): string {
    match signal
    case Continue => "continue"
    case SlowDown => "slow-down"
    case Halt => "halt"
  }

  function FromWireName(name: string): Option<Signal> {
    if name == "continue" then Some(Continue)
    else if name == "slow-down" then Some(SlowDown)
    else if name == "halt" then Some(Halt)
    else None
  }

  /**
   Deserialising a unit variant: its name as a string, or the externally tagged form, an
   object whose only key is the name and whose value is null.
   */
  function FromJson(v: Json.Value): Option<Signal> {
    match v
    case String(s) => FromWireName(s)
    case Object(fields) =>
      if fields == map["continue" := Json.Null] then Some(Continue)
      else if fields == map["slow-down" := Json.Null] then Some(SlowDown)
      else if fields == map["halt" := Json.Null] then Some(Halt)
      else None
    case _ => None
  }

  /** A signal is read from its wire name or its tagged form, and from nothing else. */
  lemma FromJsonIff(v: Json.Value, signal: Signal)
    ensures FromJson(v) == Some(signal) <==>
      v == Json.String(WireName(signal)) || v == Json.Object(map[WireName(signal) := Json.Null])
  {
    assert "halt" in map["halt" := Json.Null] && "slow-down" in map["slow-down" := Json.Null];
    assert "continue" in map["continue" := Json.Null];
  }

  /** The three names. */
  lemma WireNamesAre()
    ensures WireName(Continue) == "continue" && WireName(SlowDown) == "slow-down" && WireName(Halt) == "halt"
  {
  }
}
