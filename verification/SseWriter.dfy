/**
 Server-sent events as bytes (sections 9.2.5 and 9.2.6 of the WHATWG HTML standard):
 an `event` field, one `data` field for each line of the data, and a blank line;
 keep-alives are comment lines.
 */
module SseWriter {
  import opened Wrappers
  import opened Segments
  import opened Utf8
  import opened Sse
  import Json

  datatype Part =
    | Event(name: string, data: string)
    | KeepAlive(comment: string)

  predicate WellFormed(p: Part) {
    match p
    case Event(name, data) => '\n' !in name && '\r' !in name && '\r' !in data
    case KeepAlive(comment) => '\n' !in comment
  }

  function FieldLine(name: string, value: string): string {
    name + ": " + value
  }

  function DataLines(values: seq<string>): seq<string> {
    if values == [] then [] else [FieldLine("data", values[0])] + DataLines(values[1..])
  }

  /** A part's lines before the blank one that ends it. */
  function PartFront(p: Part): seq<string> {
    match p
    case Event(name, data) => [FieldLine("event", name)] + DataLines(Split(data, '\n'))
    case KeepAlive(comment) => [":" + comment]
  }

  function PartLines(p: Part): seq<string> {
    PartFront(p) + [""]
  }

  function Render(parts: seq<Part>): string {
    if parts == [] then "" else Terminate(PartLines(parts[0]), '\n') + Render(parts[1..])
  }

  /** The bytes on the wire. */
  function Wire(parts: seq<Part>): seq<Byte> {
    Encode(Render(parts))
  }

  /** The items a receiver is meant to see. */
  function ReceivedItems(json: Json.Codec, parts: seq<Part>): seq<Item> {
    if parts == [] then []
    else
      (match parts[0]
       case Event(name, data) =>
         var value := if json.parse(data).Some? then json.parse(data).value else Json.String(data);
         [Ok(ServerEvent(name, value, None))]
       case KeepAlive(_) => [])
      + ReceivedItems(json, parts[1..])
  }

  // ---- Lines on the wire ------------------------------------------------------------

  function EncodeAll(lines: seq<string>): seq<seq<Byte>> {
    if lines == [] then [] else [Encode(lines[0])] + EncodeAll(lines[1..])
  }

  lemma {:induction false} EncodeAllConcat(a: seq<string>, b: seq<string>)
    ensures EncodeAll(a + b) == EncodeAll(a) + EncodeAll(b)
  {
    if a == [] {
      assert a + b == b;
    } else {
      assert (a + b)[1..] == a[1..] + b;
      EncodeAllConcat(a[1..], b);
    }
  }

  lemma {:induction false} EncodeTerminate(lines: seq<string>)
    ensures Encode(Terminate(lines, '\n')) == Terminate(EncodeAll(lines), LF)
  {
    if lines != [] {
      var more := Terminate(lines[1..], '\n');
      assert Terminate(lines, '\n') == lines[0] + (['\n'] + more);
      EncodeConcat(lines[0], ['\n'] + more);
      EncodeConcat(['\n'], more);
      assert Encode(['\n']) == [LF] by {
        assert ['\n'][1..] == [] && EncodeChar('\n') == [LF];
      }
      EncodeTerminate(lines[1..]);
      var encoded := EncodeAll(lines);
      assert encoded[0] == Encode(lines[0]) && encoded[1..] == EncodeAll(lines[1..]);
      assert Terminate(encoded, LF) == encoded[0] + [LF] + Terminate(encoded[1..], LF);
    }
  }

  lemma {:induction false} EncodeAllSeparated(lines: seq<string>)
    requires Separated(lines, '\n')
    ensures Separated(EncodeAll(lines), LF)
  {
    if lines != [] {
      EncodeAscii(lines[0], LF);
      EncodeAllSeparated(lines[1..]);
    }
  }

  lemma {:induction false} DataLinesSeparated(values: seq<string>)
    requires Separated(values, '\n')
    ensures Separated(DataLines(values), '\n')
  {
    if values != [] {
      assert '\n' !in values[0];
      DataLinesSeparated(values[1..]);
    }
  }

  lemma PartLinesSeparated(p: Part)
    requires WellFormed(p)
    ensures Separated(PartLines(p), '\n')
  {
    if p.Event? {
      JoinSplit(p.data, '\n');
      DataLinesSeparated(Split(p.data, '\n'));
      assert '\n' !in FieldLine("event", p.name);
    }
  }

  // ---- One part through the parser --------------------------------------------------

  /** An encoded line that does not end in a carriage return reaches `ApplyLine` as written. */
  lemma StepOfText(json: Json.Codec, block: EventBlock, text: string)
    requires text != [] && '\r' !in text
    ensures Step(json, block, StripCr(Encode(text))) == Advance(ApplyLine(block, text), [])
  {
    EncodeAscii(text, CR);
    DecodeEncode(text);
    assert Encode(text) != [];
  }

  lemma FieldLineParses(json: Json.Codec, block: EventBlock, name: string, value: string)
    requires name != [] && ':' !in name && '\r' !in name && '\r' !in value
    ensures FieldOf(FieldLine(name, value)) == Field(name, value)
    ensures !IsComment(FieldLine(name, value))
    ensures Step(json, block, StripCr(Encode(FieldLine(name, value))))
         == Advance(ApplyLine(block, FieldLine(name, value)), [])
  {
    var line := FieldLine(name, value);
    assert line == name + [':'] + (" " + value);
    IndexOfPrefix(name, ':', " " + value);
    assert line[|name| + 1..] == " " + value;
    assert (" " + value)[1..] == value;
    assert line[0] == name[0];
    StepOfText(json, block, line);
  }

  lemma {:induction false} DataLinesParse(json: Json.Codec, block: EventBlock, values: seq<string>)
    requires forall k :: 0 <= k < |values| ==> '\r' !in values[k]
    ensures Items(json, block, EncodeAll(DataLines(values))) == []
    ensures BlockAfter(json, block, EncodeAll(DataLines(values)))
         == block.(dataLines := block.dataLines + values)
    decreases |values|
  {
    if values == [] {
      assert block.dataLines + values == block.dataLines;
    } else {
      var value, rest := values[0], values[1..];
      assert values == [value] + rest;
      assert '\r' !in value;
      var block' := block.(dataLines := block.dataLines + [value]);
      FieldLineParses(json, block, "data", value);
      DataLinesParse(json, block', rest);
      Assoc(block.dataLines, [value], rest);
    }
  }

  lemma {:induction false} SplitKeepsOut(s: string, sep: char, c: char)
    requires c !in s
    ensures forall k :: 0 <= k < |Split(s, sep)| ==> c !in Split(s, sep)[k]
  {
    var i := IndexOf(s, sep);
    if i < |s| {
      SplitKeepsOut(s[i + 1..], sep, c);
      assert Split(s, sep) == [s[..i]] + Split(s[i + 1..], sep);
    }
  }

  lemma DataParses(json: Json.Codec, block: EventBlock, data: string)
    requires block.dataLines == [] && '\r' !in data
    ensures var lines := EncodeAll(DataLines(Split(data, '\n')));
      && Items(json, block, lines) == []
      && BlockAfter(json, block, lines) == block.(dataLines := Split(data, '\n'))
  {
    SplitKeepsOut(data, '\n', '\r');
    DataLinesParse(json, block, Split(data, '\n'));
    assert [] + Split(data, '\n') == Split(data, '\n');
  }

  /** What a part's lines leave in the block when its blank line comes. */
  function FrontBlock(p: Part): EventBlock {
    match p
    case Event(name, data) => EventBlock(Some(name), Split(data, '\n'), None)
    case KeepAlive(_) => EMPTY_BLOCK
  }

  lemma FrontParses(json: Json.Codec, p: Part)
    requires WellFormed(p)
    ensures Items(json, EMPTY_BLOCK, EncodeAll(PartFront(p))) == []
    ensures BlockAfter(json, EMPTY_BLOCK, EncodeAll(PartFront(p))) == FrontBlock(p)
  {
    match p {
      case Event(name, data) =>
        var head, lines := FieldLine("event", name), DataLines(Split(data, '\n'));
        EncodeAllConcat([head], lines);
        assert EncodeAll([head]) == [Encode(head)];
        FieldLineParses(json, EMPTY_BLOCK, "event", name);
        ItemsOfOne(json, EMPTY_BLOCK, Encode(head));
        DataParses(json, EMPTY_BLOCK.(name := Some(name)), data);
        ItemsConcat(json, EMPTY_BLOCK, [Encode(head)], EncodeAll(lines));
      case KeepAlive(comment) =>
        CommentStep(json, comment);
        assert EncodeAll([":" + comment]) == [Encode(":" + comment)];
        ItemsOfOne(json, EMPTY_BLOCK, Encode(":" + comment));
    }
  }

  lemma EncodePart(p: Part)
    ensures EncodeAll(PartLines(p)) == EncodeAll(PartFront(p)) + [[]]
  {
    EncodeAllConcat(PartFront(p), [""]);
    assert [""][1..] == [];
  }

  /** An event is read back when its blank line comes; a comment leaves no trace. */
  lemma PartParses(json: Json.Codec, p: Part)
    requires WellFormed(p)
    ensures Items(json, EMPTY_BLOCK, EncodeAll(PartLines(p))) == ReceivedItems(json, [p])
    ensures BlockAfter(json, EMPTY_BLOCK, EncodeAll(PartLines(p))) == EMPTY_BLOCK
  {
    EncodePart(p);
    FrontParses(json, p);
    ItemsConcat(json, EMPTY_BLOCK, EncodeAll(PartFront(p)), [[]]);
    ItemsOfOne(json, FrontBlock(p), []);
    if p.Event? {
      JoinSplit(p.data, '\n');
    }
    assert [p][1..] == [];
  }

  lemma CommentStep(json: Json.Codec, comment: string)
    ensures Step(json, EMPTY_BLOCK, StripCr(Encode(":" + comment))) == Advance(EMPTY_BLOCK, [])
  {
    var text := ":" + comment;
    assert text[0] == ':' && text[1..] == comment;
    assert Encode(text) == [0x3A] + Encode(comment);
    DecodeEncode(text);
    if Encode(text)[|Encode(text)| - 1] == CR {
      var kept, last := text[..|text| - 1], text[|text| - 1];
      assert text == kept + [last];
      StripCrOfText(kept, last);
      DecodeEncode(kept);
      assert kept[0] == ':';
    }
  }

  lemma EncodeCharEndsInCr(c: char)
    requires EncodeChar(c)[|EncodeChar(c)| - 1] == CR
    ensures c == '\r' && EncodeChar(c) == [CR]
  {
  }

  lemma StripCrAppended(a: seq<Byte>, b: seq<Byte>)
    requires b != []
    ensures (a + b)[|a + b| - 1] == b[|b| - 1]
    ensures b == [CR] ==> StripCr(a + b) == a
  {
  }

  /** Removing the carriage-return byte removes the carriage-return character. */
  lemma StripCrOfText(kept: string, last: char)
    requires var bytes := Encode(kept + [last]); bytes != [] && bytes[|bytes| - 1] == CR
    ensures last == '\r'
    ensures StripCr(Encode(kept + [last])) == Encode(kept)
  {
    EncodeConcat(kept, [last]);
    EncodeOfOne(last);
    StripCrAppended(Encode(kept), EncodeChar(last));
    EncodeCharEndsInCr(last);
  }

  lemma EncodeOfOne(c: char)
    ensures Encode([c]) == EncodeChar(c)
  {
    assert [c][1..] == [];
    assert Encode([c]) == EncodeChar(c) + [];
  }

  // ---- The whole wire, and the wire cut short ---------------------------------------

  function PartBytes(p: Part): seq<Byte> {
    Terminate(EncodeAll(PartLines(p)), LF)
  }

  lemma WireOfPart(p: Part, rest: seq<Part>)
    ensures Wire([p] + rest) == PartBytes(p) + Wire(rest)
    ensures PartBytes(p) != []
  {
    assert ([p] + rest)[1..] == rest;
    EncodeTerminate(PartLines(p));
    EncodeConcat(Terminate(PartLines(p), '\n'), Render(rest));
    EncodePart(p);
    TerminateEnds(EncodeAll(PartLines(p)), LF);
  }

  lemma ReceivedItemsCons(json: Json.Codec, p: Part, rest: seq<Part>)
    ensures ReceivedItems(json, [p] + rest) == ReceivedItems(json, [p]) + ReceivedItems(json, rest)
  {
    assert ([p] + rest)[1..] == rest && [p][1..] == [];
  }

  /** A whole part gives its items and leaves the parser as it was, whatever bytes follow. */
  lemma PartThenBytes(json: Json.Codec, p: Part, more: seq<Byte>)
    requires WellFormed(p)
    ensures ParseInput(json, PartBytes(p) + more) == ReceivedItems(json, [p]) + ParseInput(json, more)
  {
    var lines, rest := EncodeAll(PartLines(p)), Complete(more, LF);
    PartLinesSeparated(p);
    EncodeAllSeparated(PartLines(p));
    CompleteTerminate(lines, LF, more);
    ItemsAreParseLines(json, lines + rest);
    ItemsAreParseLines(json, rest);
    ItemsConcat(json, EMPTY_BLOCK, lines, rest);
    PartParses(json, p);
  }

  /** A part that is not whole gives nothing at all. */
  lemma CutPart(json: Json.Codec, p: Part, cut: seq<Byte>, lost: seq<Byte>)
    requires WellFormed(p) && cut + lost == PartBytes(p) && lost != []
    ensures ParseInput(json, cut) == []
  {
    var lines, front := EncodeAll(PartLines(p)), EncodeAll(PartFront(p));
    PartLinesSeparated(p);
    EncodeAllSeparated(PartLines(p));
    EncodePart(p);
    CompleteOfCut(lines, LF, cut, lost);
    assert lines[..|lines| - 1] == front;
    var kept := Complete(cut, LF);
    assert front == kept + front[|kept|..];
    FrontParses(json, p);
    ItemsConcat(json, EMPTY_BLOCK, kept, front[|kept|..]);
    ItemsAreParseLines(json, kept);
  }

  /** The parser reads from a cut wire exactly the events that are whole in it; keep-alives leave no trace. */
  lemma {:induction false} CutItems(json: Json.Codec, parts: seq<Part>, whole: nat, cut: nat)
    requires forall k :: 0 <= k < |parts| ==> WellFormed(parts[k])
    requires whole <= |parts| && |Wire(parts[..whole])| <= cut <= |Wire(parts)|
    requires whole < |parts| ==> cut < |Wire(parts[..whole + 1])|
    ensures ParseInput(json, Wire(parts)[..cut]) == ReceivedItems(json, parts[..whole])
    decreases |parts|
  {
    if parts != [] {
      var p, rest, wire := parts[0], parts[1..], Wire(parts);
      var bytes := PartBytes(p);
      assert parts == [p] + rest && WellFormed(p);
      WireOfPart(p, rest);
      if whole == 0 {
        assert parts[..1] == [p] + [];
        WireOfPart(p, []);
        assert wire[..cut] == bytes[..cut] && bytes[..cut] + bytes[cut..] == bytes;
        CutPart(json, p, bytes[..cut], bytes[cut..]);
      } else {
        var n := cut - |bytes|;
        assert parts[..whole] == [p] + rest[..whole - 1];
        WireOfPart(p, rest[..whole - 1]);
        if whole < |parts| {
          assert parts[..whole + 1] == [p] + rest[..whole];
          WireOfPart(p, rest[..whole]);
        }
        CutItems(json, rest, whole - 1, n);
        assert wire[..cut] == bytes + Wire(rest)[..n];
        PartThenBytes(json, p, Wire(rest)[..n]);
        ReceivedItemsCons(json, p, rest[..whole - 1]);
      }
    }
  }

  /** The parser reads back exactly the events that were written. */
  lemma WireRoundTrip(json: Json.Codec, parts: seq<Part>)
    requires forall k :: 0 <= k < |parts| ==> WellFormed(parts[k])
    ensures ParseInput(json, Wire(parts)) == ReceivedItems(json, parts)
  {
    assert parts[..|parts|] == parts && Wire(parts)[..|Wire(parts)|] == Wire(parts);
    CutItems(json, parts, |parts|, |Wire(parts)|);
  }
}
