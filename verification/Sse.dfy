/**
 The incremental server-sent-events parser of `ferridis-protocol/src/events.rs`.

 `SseStream` is the parser with its two fields, the byte buffer and the event block
 under construction. `ParseLines` is an independent account of what a whole input
 means: it never looks at a buffer, a chunk or a half-built block.
 */
module Sse {
  import opened Wrappers
  import opened Segments
  import opened Utf8
  import Json

  datatype ServerEvent = ServerEvent(name: string, data: Json.Value, id: Option<string>)

  datatype ProtocolError =
    | NonUtf8Line(length: nat)
    | Transport(detail: string)

  type Item = Result<ServerEvent, ProtocolError>

  datatype EventBlock = EventBlock(name: Option<string>, dataLines: seq<string>, id: Option<string>) {
    predicate IsEmpty() {
      name.None? && dataLines == [] && id.None?
    }

    function IntoEvent(json: Json.Codec): Option<Item> {
      if dataLines == [] then None
      else
        var raw := Join(dataLines, '\n');
        var data := match json.parse(raw)
          case Some(v) => v
          case None => Json.String(raw);
        var eventName := match name
          case Some(n) => n
          case None => "message";
        Some(Ok(ServerEvent(eventName, data, id)))
    }
  }

  const EMPTY_BLOCK := EventBlock(None, [], None)

  datatype Field = Field(name: string, value: string)

  /** `split_once(':')`, then one leading space of the value removed. */
  function FieldOf(line: string): Field {
    var i := IndexOf(line, ':');
    if i == |line| then Field(line, "")
    else
      var v := line[i + 1..];
      Field(line[..i], if v != [] && v[0] == ' ' then v[1..] else v)
  }

  /**
   The forms of a field line: a name alone has the empty value; one space after the colon is
   not part of the value, and without that space nothing is taken away.
   */
  lemma FieldForms(name: string, value: string)
    requires ':' !in name
    ensures FieldOf(name) == Field(name, "")
    ensures FieldOf(name + [':'] + ([' '] + value)) == Field(name, value)
    ensures value == "" || value[0] != ' ' ==> FieldOf(name + [':'] + value) == Field(name, value)
  {
    IndexOfPrefix(name, ':', value);
    IndexOfPrefix(name, ':', [' '] + value);
    assert (name + [':'] + value)[|name| + 1..] == value;
    assert (name + [':'] + ([' '] + value))[|name| + 1..] == [' '] + value;
    assert ([' '] + value)[1..] == value;
  }

  predicate IsComment(line: string) {
    line != [] && line[0] == ':'
  }

  function ApplyLine(block: EventBlock, line: string): EventBlock {
    if IsComment(line) then block
    else
      var f := FieldOf(line);
      if f.name == "event" then block.(name := Some(f.value))
      else if f.name == "data" then block.(dataLines := block.dataLines + [f.value])
      else if f.name == "id" then block.(id := Some(f.value))
      else block
  }

  function StripCr(line: seq<Byte>): seq<Byte> {
    if line != [] && line[|line| - 1] == CR then line[..|line| - 1] else line
  }

  // ---- The line-by-line semantics --------------------------------------------------

  datatype Advance = Advance(block: EventBlock, emit: seq<Item>)

  /** What one complete line does, its line feed and one carriage return already removed. */
  function Step(json: Json.Codec, block: EventBlock, line: seq<Byte>): Advance {
    if line == [] then
      if block.IsEmpty() then Advance(block, [])
      else
        match block.IntoEvent(json)
        case Some(item) => Advance(EMPTY_BLOCK, [item])
        case None => Advance(EMPTY_BLOCK, [])
    else
      match Decode(line)
      case None => Advance(block, [Err(NonUtf8Line(|line|))])
      case Some(text) => Advance(ApplyLine(block, text), [])
  }

  function Items(json: Json.Codec, block: EventBlock, lines: seq<seq<Byte>>): seq<Item>
    decreases |lines|
  {
    if lines == [] then []
    else
      var a := Step(json, block, StripCr(lines[0]));
      a.emit + Items(json, a.block, lines[1..])
  }

  function BlockAfter(json: Json.Codec, block: EventBlock, lines: seq<seq<Byte>>): EventBlock
    decreases |lines|
  {
    if lines == [] then block
    else BlockAfter(json, Step(json, block, StripCr(lines[0])).block, lines[1..])
  }

  lemma ItemsCons(json: Json.Codec, block: EventBlock, line: seq<Byte>, rest: seq<seq<Byte>>)
    ensures var a := Step(json, block, StripCr(line));
      && Items(json, block, [line] + rest) == a.emit + Items(json, a.block, rest)
      && BlockAfter(json, block, [line] + rest) == BlockAfter(json, a.block, rest)
  {
    assert ([line] + rest)[1..] == rest;
  }

  lemma {:induction false} ItemsConcat(json: Json.Codec, block: EventBlock, a: seq<seq<Byte>>, b: seq<seq<Byte>>)
    ensures Items(json, block, a + b) == Items(json, block, a) + Items(json, BlockAfter(json, block, a), b)
    ensures BlockAfter(json, block, a + b) == BlockAfter(json, BlockAfter(json, block, a), b)
    decreases |a|
  {
    if a == [] {
      assert a + b == b;
    } else {
      var line, rest := a[0], a[1..];
      var step := Step(json, block, StripCr(line));
      assert a == [line] + rest;
      Assoc([line], rest, b);
      ItemsCons(json, block, line, rest);
      ItemsCons(json, block, line, rest + b);
      ItemsConcat(json, step.block, rest, b);
      Assoc(step.emit, Items(json, step.block, rest), Items(json, BlockAfter(json, step.block, rest), b));
    }
  }

  // ---- What the upstream delivers ---------------------------------------------------

  /** One poll of the byte stream below; an exhausted script is a closed stream. */
  datatype Upstream = Pending | Chunk(bytes: seq<Byte>) | Failed(error: ProtocolError)

  function Arriving(u: Upstream): seq<Byte> {
    if u.Chunk? then u.bytes else []
  }

  function Received(feed: seq<Upstream>): seq<Byte> {
    if feed == [] then [] else Arriving(feed[0]) + Received(feed[1..])
  }

  /** What arrives is what the chunks hold, in order; a poll that is not ready adds nothing. */
  lemma ReceivedIs(bytes: seq<Byte>, error: ProtocolError, rest: seq<Upstream>)
    ensures Received([]) == []
    ensures Received([Chunk(bytes)] + rest) == bytes + Received(rest)
    ensures Received([Pending] + rest) == Received(rest)
    ensures Received([Failed(error)] + rest) == Received(rest)
  {
    assert ([Chunk(bytes)] + rest)[1..] == rest && ([Pending] + rest)[1..] == rest;
    assert ([Failed(error)] + rest)[1..] == rest;
    assert [] + Received(rest) == Received(rest);
  }

  ghost predicate NoFailure(feed: seq<Upstream>) {
    forall k :: 0 <= k < |feed| ==> !feed[k].Failed?
  }

  /** Everything a parser in this state still yields, however often it is polled. */
  function Remaining(json: Json.Codec, feed: seq<Upstream>, buffer: seq<Byte>, block: EventBlock): seq<Item>
    decreases |feed|, 1
  {
    var lines := Complete(buffer, LF);
    Items(json, block, lines) + Later(json, feed, Rest(buffer, LF), BlockAfter(json, block, lines))
  }

  /** The same for a parser whose buffer holds no complete line. */
  function Later(json: Json.Codec, feed: seq<Upstream>, rest: seq<Byte>, block: EventBlock): seq<Item>
    decreases |feed|, 0
  {
    if feed == [] then []
    else if feed[0].Failed? then [Err(feed[0].error)] + Remaining(json, feed[1..], rest, block)
    else Remaining(json, feed[1..], rest + Arriving(feed[0]), block)
  }

  datatype Poll = NotReady | Ready(item: Option<Item>)

  class SseStream {
    const json: Json.Codec
    var inner: seq<Upstream>
    var buffer: seq<Byte>
    var block: EventBlock

    constructor (json: Json.Codec, inner: seq<Upstream>)
      ensures this.json == json && this.inner == inner
      ensures buffer == [] && block == EMPTY_BLOCK
    {
      this.json := json;
      this.inner := inner;
      buffer, block := [], EMPTY_BLOCK;
    }

    ghost function Pending(): seq<Item>
      reads this
    {
      Items(json, block, Complete(buffer, LF))
    }

    ghost function Future(): seq<Item>
      reads this
    {
      Remaining(json, inner, buffer, block)
    }

    /** Emits the next complete event of the buffer, or consumes every complete line and finds none. */
    method DrainOne() returns (emit: Option<Item>)
      modifies this`buffer, this`block
      ensures emit.Some? ==> old(Pending()) == [emit.value] + Pending() && |buffer| < |old(buffer)|
      ensures emit.None? ==> old(Pending()) == [] && Complete(buffer, LF) == []
      ensures Rest(buffer, LF) == Rest(old(buffer), LF)
      ensures BlockAfter(json, block, Complete(buffer, LF))
           == BlockAfter(json, old(block), Complete(old(buffer), LF))
    {
      while true
        invariant old(Pending()) == Pending()
        invariant |buffer| <= |old(buffer)|
        invariant Rest(buffer, LF) == Rest(old(buffer), LF)
        invariant BlockAfter(json, block, Complete(buffer, LF))
               == BlockAfter(json, old(block), Complete(old(buffer), LF))
        decreases |buffer|
      {
        var nl := IndexOf(buffer, LF);
        if nl == |buffer| {
          return None;
        }
        var line := buffer[..nl];
        buffer := buffer[nl + 1..];
        if line != [] && line[|line| - 1] == CR {
          line := line[..|line| - 1];
        }
        if line == [] {
          if !block.IsEmpty() {
            var finished := block;
            block := EMPTY_BLOCK;
            emit := finished.IntoEvent(json);
            if emit.Some? {
              return;
            }
          }
          continue;
        }
        match Decode(line) {
          case None => return Some(Err(NonUtf8Line(|line|)));
          case Some(text) => block := ApplyLine(block, text);
        }
      }
    }

    /**
     One poll: what it returns is the next item the parser owes, it asks to be polled
     again without losing anything, or nothing is owed any more.
     */
    method PollNext() returns (r: Poll)
      modifies this
      ensures match r
        case NotReady => Future() == old(Future()) && |inner| < |old(inner)|
        case Ready(Some(item)) =>
          && old(Future()) == [item] + Future()
          && (|inner| < |old(inner)| || (inner == old(inner) && |buffer| < |old(buffer)|))
        case Ready(None) => old(Future()) == [] && inner == []
    {
      while true
        invariant Future() == old(Future())
        invariant |inner| < |old(inner)|
               || (inner == old(inner) && buffer == old(buffer) && block == old(block))
        decreases |inner|
      {
        label Draining:
        var emit := DrainOne();
        if emit.Some? {
          DrainFuture(json, inner, old@Draining(buffer), old@Draining(block), buffer, block, [emit.value]);
          return Ready(emit);
        }
        DrainFuture(json, inner, old@Draining(buffer), old@Draining(block), buffer, block, []);
        if inner == [] {
          emit := DrainOne();
          return Ready(emit);
        }
        var polled := inner[0];
        inner := inner[1..];
        match polled {
          case Pending =>
            assert buffer + Arriving(polled) == buffer;
            return NotReady;
          case Failed(e) => return Ready(Some(Err(e)));
          case Chunk(bytes) => buffer := buffer + bytes;
        }
      }
    }
  }

  /** Draining part of a buffer leaves the rest of what is owed unchanged. */
  lemma DrainFuture(json: Json.Codec, feed: seq<Upstream>, buffer: seq<Byte>, block: EventBlock,
                    buffer': seq<Byte>, block': EventBlock, emitted: seq<Item>)
    requires Items(json, block, Complete(buffer, LF)) == emitted + Items(json, block', Complete(buffer', LF))
    requires Rest(buffer', LF) == Rest(buffer, LF)
    requires BlockAfter(json, block', Complete(buffer', LF)) == BlockAfter(json, block, Complete(buffer, LF))
    ensures Remaining(json, feed, buffer, block) == emitted + Remaining(json, feed, buffer', block')
  {
    var later := Later(json, feed, Rest(buffer, LF), BlockAfter(json, block, Complete(buffer, LF)));
    Assoc(emitted, Items(json, block', Complete(buffer', LF)), later);
  }

  // ---- Chunking independence --------------------------------------------------------

  /** A buffer cut anywhere: the items of the parts are the items of the whole. */
  lemma RemainingOfParts(json: Json.Codec, a: seq<Byte>, b: seq<Byte>, block: EventBlock)
    ensures var lines, rest := Complete(a, LF), Rest(a, LF);
      var after := BlockAfter(json, block, lines);
      && Items(json, block, Complete(a + b, LF)) == Items(json, block, lines) + Items(json, after, Complete(rest + b, LF))
      && BlockAfter(json, block, Complete(a + b, LF)) == BlockAfter(json, after, Complete(rest + b, LF))
      && Rest(a + b, LF) == Rest(rest + b, LF)
  {
    CompleteConcat(a, b, LF);
    ItemsConcat(json, block, Complete(a, LF), Complete(Rest(a, LF) + b, LF));
  }

  /** A parser fed without failures yields what the bytes mean, then whatever follows the feed. */
  lemma {:induction false} RemainingIsWhole(
      json: Json.Codec, feed: seq<Upstream>, more: seq<Upstream>, buffer: seq<Byte>, block: EventBlock)
    requires NoFailure(feed)
    ensures Remaining(json, feed + more, buffer, block)
         == Remaining(json, more, buffer + Received(feed), block)
    decreases |feed|
  {
    if feed == [] {
      assert feed + more == more && buffer + Received(feed) == buffer;
    } else {
      var lines := Complete(buffer, LF);
      var rest, after := Rest(buffer, LF), BlockAfter(json, block, lines);
      var whole := buffer + Received(feed);
      assert (feed + more)[1..] == feed[1..] + more;
      Assoc(rest, Arriving(feed[0]), Received(feed[1..]));
      RemainingOfParts(json, buffer, Received(feed), block);
      var later := Later(json, more, Rest(whole, LF), BlockAfter(json, block, Complete(whole, LF)));
      calc {
        Remaining(json, feed + more, buffer, block);
        Items(json, block, lines) + Remaining(json, feed[1..] + more, rest + Arriving(feed[0]), after);
        { RemainingIsWhole(json, feed[1..], more, rest + Arriving(feed[0]), after); }
        Items(json, block, lines) + Remaining(json, more, rest + Received(feed), after);
        Items(json, block, lines) + (Items(json, after, Complete(rest + Received(feed), LF)) + later);
        { Assoc(Items(json, block, lines), Items(json, after, Complete(rest + Received(feed), LF)), later); }
        Items(json, block, Complete(whole, LF)) + later;
        Remaining(json, more, whole, block);
      }
    }
  }

  // ---- The meaning of a whole input -------------------------------------------------

  predicate IsBlank(line: seq<Byte>) {
    StripCr(line) == []
  }

  /** How many lines come before the first blank one. */
  function BlankAt(lines: seq<seq<Byte>>): (i: nat)
    ensures i <= |lines|
    ensures forall k :: 0 <= k < i ==> !IsBlank(lines[k])
    ensures i < |lines| ==> IsBlank(lines[i])
  {
    if lines == [] || IsBlank(lines[0]) then 0 else 1 + BlankAt(lines[1..])
  }

  /** The fields of a group of lines; comments and undecodable lines carry none. */
  function Fields(lines: seq<seq<Byte>>): seq<Field> {
    if lines == [] then []
    else
      var own := match Decode(StripCr(lines[0]))
        case None => []
        case Some(text) => if IsComment(text) then [] else [FieldOf(text)];
      own + Fields(lines[1..])
  }

  /** One error for each line that is not UTF-8. */
  function Errors(lines: seq<seq<Byte>>): seq<Item> {
    if lines == [] then []
    else
      var line := StripCr(lines[0]);
      (if Decode(line).None? then [Err(NonUtf8Line(|line|))] else []) + Errors(lines[1..])
  }

  function Values(fields: seq<Field>, name: string): seq<string> {
    if fields == [] then []
    else (if fields[0].name == name then [fields[0].value] else []) + Values(fields[1..], name)
  }

  function LastOr<T>(values: seq<T>, otherwise: Option<T>): Option<T> {
    if values == [] then otherwise else Some(values[|values| - 1])
  }

  /**
   What a terminated group means: its undecodable lines are reported, and it is one event
   when it has a data field, under the last name and id that it gives.
   */
  function GroupItems(json: Json.Codec, lines: seq<seq<Byte>>): seq<Item> {
    var fields := Fields(lines);
    var data := Values(fields, "data");
    Errors(lines) +
    if data == [] then []
    else
      var raw := Join(data, '\n');
      var value := if json.parse(raw).Some? then json.parse(raw).value else Json.String(raw);
      var name := LastOr(Values(fields, "event"), Some("message")).value;
      [Ok(ServerEvent(name, value, LastOr(Values(fields, "id"), None)))]
  }

  /** A whole input: groups end at blank lines, and an unterminated group is no event. */
  function ParseLines(json: Json.Codec, lines: seq<seq<Byte>>): seq<Item>
    decreases |lines|
  {
    var i := BlankAt(lines);
    if i == |lines| then Errors(lines)
    else GroupItems(json, lines[..i]) + ParseLines(json, lines[i + 1..])
  }

  /** A block after the fields of a group. */
  function Overlay(block: EventBlock, fields: seq<Field>): EventBlock {
    EventBlock(
      LastOr(Values(fields, "event"), block.name),
      block.dataLines + Values(fields, "data"),
      LastOr(Values(fields, "id"), block.id))
  }

  lemma ValuesConcat(a: Field, rest: seq<Field>, name: string)
    ensures Values([a] + rest, name) == (if a.name == name then [a.value] else []) + Values(rest, name)
  {
    assert ([a] + rest)[1..] == rest;
  }

  lemma OverlayCons(block: EventBlock, line: string, rest: seq<Field>)
    requires !IsComment(line)
    ensures Overlay(block, [FieldOf(line)] + rest) == Overlay(ApplyLine(block, line), rest)
  {
    var f := FieldOf(line);
    ValuesConcat(f, rest, "event");
    ValuesConcat(f, rest, "data");
    ValuesConcat(f, rest, "id");
  }

  lemma {:induction false} GroupAccumulates(json: Json.Codec, block: EventBlock, lines: seq<seq<Byte>>)
    requires forall k :: 0 <= k < |lines| ==> !IsBlank(lines[k])
    ensures Items(json, block, lines) == Errors(lines)
    ensures BlockAfter(json, block, lines) == Overlay(block, Fields(lines))
    decreases |lines|
  {
    if lines == [] {
      assert block.dataLines + [] == block.dataLines;
    } else {
      assert !IsBlank(lines[0]);
      var line := StripCr(lines[0]);
      var block' := Step(json, block, line).block;
      var rest := Fields(lines[1..]);
      GroupAccumulates(json, block', lines[1..]);
      match Decode(line) {
        case None =>
          assert [] + rest == rest;
        case Some(text) =>
          if IsComment(text) {
            assert [] + rest == rest;
          } else {
            OverlayCons(block, text, rest);
          }
      }
    }
  }

  lemma BlankCloses(json: Json.Codec, fields: seq<Field>)
    ensures var block := Overlay(EMPTY_BLOCK, fields);
      var a := Step(json, block, []);
      a.block == EMPTY_BLOCK &&
      a.emit == match block.IntoEvent(json) case None => [] case Some(item) => [item]
  {
  }

  lemma ItemsOfOne(json: Json.Codec, block: EventBlock, line: seq<Byte>)
    ensures Items(json, block, [line]) == Step(json, block, StripCr(line)).emit
    ensures BlockAfter(json, block, [line]) == Step(json, block, StripCr(line)).block
  {
    assert [line][1..] == [];
    assert Items(json, block, [line]) == Step(json, block, StripCr(line)).emit + [];
  }

  lemma GroupCloses(json: Json.Codec, group: seq<seq<Byte>>, blank: seq<Byte>)
    requires forall k :: 0 <= k < |group| ==> !IsBlank(group[k])
    requires IsBlank(blank)
    ensures Items(json, EMPTY_BLOCK, group + [blank]) == GroupItems(json, group)
    ensures BlockAfter(json, EMPTY_BLOCK, group + [blank]) == EMPTY_BLOCK
  {
    var fields := Fields(group);
    GroupAccumulates(json, EMPTY_BLOCK, group);
    ItemsConcat(json, EMPTY_BLOCK, group, [blank]);
    ItemsOfOne(json, Overlay(EMPTY_BLOCK, fields), blank);
    BlankCloses(json, fields);
    assert [] + Values(fields, "data") == Values(fields, "data");
  }

  /** The line-by-line parser computes exactly the meaning of its input. */
  lemma {:induction false} ItemsAreParseLines(json: Json.Codec, lines: seq<seq<Byte>>)
    ensures Items(json, EMPTY_BLOCK, lines) == ParseLines(json, lines)
    decreases |lines|
  {
    var i := BlankAt(lines);
    if i == |lines| {
      GroupAccumulates(json, EMPTY_BLOCK, lines);
    } else {
      var group, blank, rest := lines[..i], lines[i], lines[i + 1..];
      assert lines == group + [blank] + rest;
      GroupThenRest(json, group, blank, rest);
      ItemsAreParseLines(json, rest);
    }
  }

  lemma GroupThenRest(json: Json.Codec, group: seq<seq<Byte>>, blank: seq<Byte>, rest: seq<seq<Byte>>)
    requires forall k :: 0 <= k < |group| ==> !IsBlank(group[k])
    requires IsBlank(blank)
    ensures Items(json, EMPTY_BLOCK, group + [blank] + rest) == GroupItems(json, group) + Items(json, EMPTY_BLOCK, rest)
  {
    GroupCloses(json, group, blank);
    ItemsConcat(json, EMPTY_BLOCK, group + [blank], rest);
  }

  function WithCrs(lines: seq<seq<Byte>>): seq<seq<Byte>> {
    if lines == [] then [] else [lines[0] + [CR]] + WithCrs(lines[1..])
  }

  /** One carriage return before each line feed makes no difference. */
  lemma {:induction false} CrsAreStripped(json: Json.Codec, block: EventBlock, lines: seq<seq<Byte>>)
    requires forall k :: 0 <= k < |lines| ==> lines[k] == [] || lines[k][|lines[k]| - 1] != CR
    ensures Items(json, block, WithCrs(lines)) == Items(json, block, lines)
    decreases |lines|
  {
    if lines != [] {
      var line, rest := lines[0], lines[1..];
      assert (line + [CR])[..|line|] == line;
      assert WithCrs(lines)[1..] == WithCrs(rest);
      assert forall k :: 0 <= k < |rest| ==> rest[k] == lines[k + 1];
      CrsAreStripped(json, Step(json, block, line).block, rest);
    }
  }

  function ParseInput(json: Json.Codec, bytes: seq<Byte>): seq<Item> {
    ParseLines(json, Complete(bytes, LF))
  }

  /** However the bytes are cut into chunks, a fresh parser yields the meaning of their concatenation. */
  lemma ChunkingIndependence(json: Json.Codec, feed: seq<Upstream>)
    requires NoFailure(feed)
    ensures Remaining(json, feed, [], EMPTY_BLOCK) == ParseInput(json, Received(feed))
  {
    RemainingIsWhole(json, feed, [], [], EMPTY_BLOCK);
    assert feed + [] == feed && [] + Received(feed) == Received(feed);
    ItemsAreParseLines(json, Complete(Received(feed), LF));
  }

  /** A transport failure surfaces in place, after everything that the earlier bytes complete. */
  lemma FailureIsInPlace(json: Json.Codec, feed: seq<Upstream>, error: ProtocolError, more: seq<Upstream>)
    requires NoFailure(feed)
    ensures ParseInput(json, Received(feed)) + [Err(error)]
         <= Remaining(json, feed + [Failed(error)] + more, [], EMPTY_BLOCK)
  {
    var received := Received(feed);
    var lines := Complete(received, LF);
    var failing := [Failed(error)] + more;
    assert feed + [Failed(error)] + more == feed + failing;
    RemainingIsWhole(json, feed, failing, [], EMPTY_BLOCK);
    assert [] + received == received;
    ItemsAreParseLines(json, lines);
    assert failing[0] == Failed(error);
    assert Later(json, failing, Rest(received, LF), BlockAfter(json, EMPTY_BLOCK, lines))[0] == Err(error);
  }

  /** Cutting the input short never changes what was complete before the cut. */
  lemma TruncationIsPrefix(json: Json.Codec, bytes: seq<Byte>, cut: nat)
    requires cut <= |bytes|
    ensures ParseInput(json, bytes[..cut]) <= ParseInput(json, bytes)
  {
    assert bytes == bytes[..cut] + bytes[cut..];
    RemainingOfParts(json, bytes[..cut], bytes[cut..], EMPTY_BLOCK);
    ItemsAreParseLines(json, Complete(bytes, LF));
    ItemsAreParseLines(json, Complete(bytes[..cut], LF));
  }
}
