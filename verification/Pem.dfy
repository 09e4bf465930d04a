/**
 The PEM printer and parsers of `ferridis-protocol/src/signing.rs`: base64 wrapped at 64
 columns between marker lines (section 2 of RFC 7468), read back tolerantly.
 */
module Pem {
  import opened Wrappers
  import opened Segments
  import opened Utf8
  import Base64

  datatype PemError = NoBlock | BadBase64

  datatype Label = PublicKey | Certificate {
    function Name(): string {
      match this
      case PublicKey => "PUBLIC KEY"
      case Certificate => "CERTIFICATE"
    }

    function Begin(): string {
      "-----BEGIN " + Name() + "-----"
    }

    function End(): string {
      "-----END " + Name() + "-----"
    }
  }

  /** The marker lines as they are written. */
  lemma MarkersAre()
    ensures PublicKey.Begin() == "-----BEGIN PUBLIC KEY-----" && PublicKey.End() == "-----END PUBLIC KEY-----"
    ensures Certificate.Begin() == "-----BEGIN CERTIFICATE-----" && Certificate.End() == "-----END CERTIFICATE-----"
  {
  }

  // ---- Lines and trimming -----------------------------------------------------------

  /** The characters with the Unicode White_Space property. */
  predicate IsWhitespace(c: char) {
    var n := c as int;
    || 9 <= n <= 13 || n == 0x20 || n == 0x85 || n == 0xA0 || n == 0x1680
    || 0x2000 <= n <= 0x200A || n == 0x2028 || n == 0x2029 || n == 0x202F || n == 0x205F || n == 0x3000
  }

  function TrimStart(s: string): string {
    if s != [] && IsWhitespace(s[0]) then TrimStart(s[1..]) else s
  }

  function TrimEnd(s: string): string
    decreases |s|
  {
    if s != [] && IsWhitespace(s[|s| - 1]) then TrimEnd(s[..|s| - 1]) else s
  }

  function Trim(s: string): string {
    TrimEnd(TrimStart(s))
  }

  function StripReturn(line: string): string {
    if line != [] && line[|line| - 1] == '\r' then line[..|line| - 1] else line
  }

  function StripReturns(lines: seq<string>): seq<string> {
    if lines == [] then [] else [StripReturn(lines[0])] + StripReturns(lines[1..])
  }

  /** `str::lines`: LF or CR LF ends a line, and a last line needs no ending. */
  function Lines(s: string): seq<string> {
    StripReturns(Complete(s, '\n')) + if Rest(s, '\n') == [] then [] else [Rest(s, '\n')]
  }

  // ---- Parser -----------------------------------------------------------------------

  /** The base64 text gathered from lines, markers skipped and reading stopped at the end marker. */
  function Between(begin: string, end: string, lines: seq<string>, inBlock: bool): string {
    if lines == [] then []
    else
      var trimmed := Trim(lines[0]);
      if trimmed == begin then Between(begin, end, lines[1..], true)
      else if trimmed == end then []
      else (if inBlock then trimmed else []) + Between(begin, end, lines[1..], inBlock)
  }

  function Body(tag: Label, lines: seq<string>, inBlock: bool): string {
    Between(tag.Begin(), tag.End(), lines, inBlock)
  }

  function Decoded(tag: Label, pem: string): Result<seq<Byte>, PemError> {
    var b64 := Body(tag, Lines(pem), false);
    if b64 == [] then Err(NoBlock)
    else
      match Base64.Decode(b64)
      case None => Err(BadBase64)
      case Some(der) => Ok(der)
  }

  method Gather(begin: string, end: string, lines: seq<string>) returns (b64: string)
    ensures b64 == Between(begin, end, lines, false)
  {
    var inBlock := false;
    b64 := [];
    var pending := lines;
    ghost var whole := Between(begin, end, lines, false);
    while pending != []
      invariant b64 + Between(begin, end, pending, inBlock) == whole
      decreases |pending|
    {
      var line, rest := pending[0], pending[1..];
      assert pending == [line] + rest;
      BetweenCons(begin, end, line, rest, inBlock);
      pending := rest;
      var trimmed := Trim(line);
      if trimmed == begin {
        inBlock := true;
        continue;
      }
      if trimmed == end {
        assert b64 + [] == whole;
        break;
      }
      if inBlock {
        Assoc(b64, trimmed, Between(begin, end, rest, true));
        b64 := b64 + trimmed;
      }
    }
  }

  /** `decode_public_key_pem` and `pem_to_der` are the same but for their label. */
  method DecodePem(tag: Label, pem: string) returns (r: Result<seq<Byte>, PemError>)
    ensures r == Decoded(tag, pem)
  {
    var b64 := Gather(tag.Begin(), tag.End(), Lines(pem));
    if b64 == [] {
      return Err(NoBlock);
    }
    var decoded := Base64.Decode(b64);
    return if decoded.None? then Err(BadBase64) else Ok(decoded.value);
  }

  // ---- Printer ----------------------------------------------------------------------

  /** Consecutive pieces of 64 characters, the last one possibly shorter. */
  function Chunks(s: string): seq<string>
    decreases |s|
  {
    if s == [] then [] else if |s| <= 64 then [s] else [s[..64]] + Chunks(s[64..])
  }

  function ArmorLines(tag: Label, der: seq<Byte>): seq<string> {
    [tag.Begin()] + Chunks(Base64.Encode(Base64.Standard, true, der)) + [tag.End()]
  }

  function Armor(tag: Label, der: seq<Byte>): string {
    Terminate(ArmorLines(tag, der), '\n')
  }

  method SpkiDerToPublicKeyPem(der: seq<Byte>) returns (out: string)
    ensures out == Armor(PublicKey, der)
  {
    var b64 := Base64.Encode(Base64.Standard, true, der);
    var begin, end := PublicKey.Begin(), PublicKey.End();
    out := begin + ['\n'];
    ghost var written := [begin];
    assert out == Terminate(written, '\n') by { TerminateOne(begin); }
    var at := 0;
    while at < |b64|
      invariant at <= |b64|
      invariant out == Terminate(written, '\n')
      invariant written + Chunks(b64[at..]) == [begin] + Chunks(b64)
    {
      var stop := if at + 64 <= |b64| then at + 64 else |b64|;
      var chunk := b64[at..stop];
      out := out + chunk + ['\n'];
      ChunksAt(b64, at, stop);
      TerminateMore(written, chunk);
      Assoc(written, [chunk], Chunks(b64[stop..]));
      written := written + [chunk];
      at := stop;
    }
    assert written == [begin] + Chunks(b64) by {
      assert b64[at..] == [] && written + [] == written;
    }
    out := out + end + ['\n'];
    TerminateMore(written, end);
  }

  lemma TerminateOne(line: string)
    ensures Terminate([line], '\n') == line + ['\n']
  {
    assert [line][1..] == [];
    assert Terminate([line], '\n') == line + ['\n'] + [];
  }

  lemma TerminateMore(lines: seq<string>, line: string)
    ensures Terminate(lines + [line], '\n') == Terminate(lines, '\n') + line + ['\n']
  {
    TerminateConcat(lines, [line], '\n');
    TerminateOne(line);
  }

  lemma ArmorIs(tag: Label, der: seq<Byte>)
    ensures Armor(tag, der) == (tag.Begin() + ['\n'])
                             + Terminate(Chunks(Base64.Encode(Base64.Standard, true, der)), '\n')
                             + (tag.End() + ['\n'])
  {
    var body := Chunks(Base64.Encode(Base64.Standard, true, der));
    TerminateConcat([tag.Begin()] + body, [tag.End()], '\n');
    TerminateConcat([tag.Begin()], body, '\n');
    TerminateOne(tag.Begin());
    TerminateOne(tag.End());
  }

  /** What is printed: the two marker lines around the wrapped text, every line ended. */
  lemma PublicKeyPemIs(der: seq<Byte>)
    ensures Armor(PublicKey, der) == "-----BEGIN PUBLIC KEY-----\n"
                                   + Terminate(Chunks(Base64.Encode(Base64.Standard, true, der)), '\n')
                                   + "-----END PUBLIC KEY-----\n"
  {
    MarkersAre();
    ArmorIs(PublicKey, der);
    assert PublicKey.Begin() + ['\n'] == "-----BEGIN PUBLIC KEY-----\n";
    assert PublicKey.End() + ['\n'] == "-----END PUBLIC KEY-----\n";
  }

  lemma ChunksAt(s: string, at: nat, stop: nat)
    requires at < |s| && stop == if at + 64 <= |s| then at + 64 else |s|
    ensures Chunks(s[at..]) == [s[at..stop]] + Chunks(s[stop..])
  {
    var rest := s[at..];
    if |rest| > 64 {
      assert rest[..64] == s[at..stop] && rest[64..] == s[stop..];
    } else {
      assert s[at..stop] == rest && s[stop..] == [];
    }
  }

  /** The layout: every body line but the last has 64 characters, and the lines are the text. */
  lemma {:induction false} ChunksLayout(s: string)
    ensures Flatten(Chunks(s)) == s
    ensures forall k :: 0 <= k < |Chunks(s)| ==> 0 < |Chunks(s)[k]| <= 64
    ensures forall k :: 0 <= k < |Chunks(s)| - 1 ==> |Chunks(s)[k]| == 64
    ensures forall k, c :: 0 <= k < |Chunks(s)| && c in Chunks(s)[k] ==> c in s
    decreases |s|
  {
    if |s| > 64 {
      var head, tail := s[..64], s[64..];
      ChunksLayout(tail);
      assert s == head + tail;
      assert Chunks(s) == [head] + Chunks(tail) && Chunks(s)[1..] == Chunks(tail);
    } else if s != [] {
      assert [s][1..] == [] && s + [] == s;
    }
  }

  // ---- Trimming ---------------------------------------------------------------------

  ghost predicate AllWhitespace(s: string) {
    forall c :: c in s ==> IsWhitespace(c)
  }

  predicate Tight(s: string) {
    s != [] && !IsWhitespace(s[0]) && !IsWhitespace(s[|s| - 1])
  }

  lemma {:induction false} TrimStartSkips(pad: string, s: string)
    requires AllWhitespace(pad)
    ensures TrimStart(pad + s) == TrimStart(s)
  {
    if pad == [] {
      assert pad + s == s;
    } else {
      assert pad[0] in pad && (pad + s)[1..] == pad[1..] + s;
      TrimStartSkips(pad[1..], s);
    }
  }

  lemma {:induction false} TrimEndSkips(s: string, pad: string)
    requires AllWhitespace(pad)
    ensures TrimEnd(s + pad) == TrimEnd(s)
    decreases |pad|
  {
    if pad == [] {
      assert s + pad == s;
    } else {
      var kept := pad[..|pad| - 1];
      assert pad[|pad| - 1] in pad && (s + pad)[..|s + pad| - 1] == s + kept;
      TrimEndSkips(s, kept);
    }
  }

  /** Padding a line with whitespace on either side does not change what trimming leaves. */
  lemma TrimPadded(before: string, line: string, after: string)
    requires AllWhitespace(before) && AllWhitespace(after) && Tight(line)
    ensures Trim(before + line + after) == line
  {
    assert before + line + after == before + (line + after);
    TrimStartSkips(before, line + after);
    assert (line + after)[0] == line[0];
    TrimEndSkips(line, after);
  }

  lemma {:induction false} TrimStartOfAppended(s: string, c: char)
    requires IsWhitespace(c)
    ensures TrimStart(s + [c]) == if TrimStart(s) == [] then [] else TrimStart(s) + [c]
  {
    if s == [] {
      assert s + [c] == [c] && [c][1..] == [];
    } else if IsWhitespace(s[0]) {
      assert (s + [c])[1..] == s[1..] + [c];
      TrimStartOfAppended(s[1..], c);
    }
  }

  /** A carriage return before the line feed is whitespace to `trim` anyway. */
  lemma TrimStripReturn(line: string)
    ensures Trim(StripReturn(line)) == Trim(line)
  {
    if StripReturn(line) != line {
      var kept := StripReturn(line);
      assert line == kept + ['\r'];
      TrimStartOfAppended(kept, '\r');
      TrimEndSkips(TrimStart(kept), ['\r']);
    }
  }

  // ---- What the parser does with a block --------------------------------------------

  ghost predicate NoMarker(tag: Label, lines: seq<string>) {
    forall k :: 0 <= k < |lines| ==> Trim(lines[k]) != tag.Begin() && Trim(lines[k]) != tag.End()
  }

  lemma BetweenCons(begin: string, end: string, line: string, rest: seq<string>, inBlock: bool)
    ensures Between(begin, end, [line] + rest, inBlock) == (
      if Trim(line) == begin then Between(begin, end, rest, true)
      else if Trim(line) == end then []
      else (if inBlock then Trim(line) else []) + Between(begin, end, rest, inBlock))
  {
    assert ([line] + rest)[1..] == rest;
  }

  lemma BodyCons(tag: Label, line: string, rest: seq<string>, inBlock: bool)
    ensures Body(tag, [line] + rest, inBlock) == (
      if Trim(line) == tag.Begin() then Body(tag, rest, true)
      else if Trim(line) == tag.End() then []
      else (if inBlock then Trim(line) else []) + Body(tag, rest, inBlock))
  {
    BetweenCons(tag.Begin(), tag.End(), line, rest, inBlock);
  }

  lemma {:induction false} BodySkips(tag: Label, before: seq<string>, rest: seq<string>)
    requires NoMarker(tag, before)
    ensures Body(tag, before + rest, false) == Body(tag, rest, false)
  {
    if before == [] {
      assert before + rest == rest;
    } else {
      var line, more := before[0], before[1..];
      assert before == [line] + more && NoMarker(tag, more);
      Assoc([line], more, rest);
      BodyCons(tag, line, more + rest, false);
      BodySkips(tag, more, rest);
    }
  }

  function Trims(lines: seq<string>): seq<string> {
    if lines == [] then [] else [Trim(lines[0])] + Trims(lines[1..])
  }

  lemma {:induction false} BodyGathers(tag: Label, lines: seq<string>, rest: seq<string>)
    requires NoMarker(tag, lines)
    ensures Body(tag, lines + rest, true) == Flatten(Trims(lines)) + Body(tag, rest, true)
  {
    if lines == [] {
      assert lines + rest == rest;
    } else {
      var line, more := lines[0], lines[1..];
      assert lines == [line] + more && NoMarker(tag, more);
      Assoc([line], more, rest);
      BodyCons(tag, line, more + rest, true);
      BodyGathers(tag, more, rest);
      assert Trims(lines)[1..] == Trims(more);
      Assoc(Trim(line), Flatten(Trims(more)), Body(tag, rest, true));
    }
  }

  lemma {:induction false} TrimsMatch(lines: seq<string>, trimmed: seq<string>)
    requires |lines| == |trimmed|
    requires forall k :: 0 <= k < |lines| ==> Trim(lines[k]) == trimmed[k]
    ensures Trims(lines) == trimmed
  {
    if lines != [] {
      assert forall k :: 0 <= k < |lines[1..]| ==> lines[1..][k] == lines[k + 1] && trimmed[1..][k] == trimmed[k + 1];
      TrimsMatch(lines[1..], trimmed[1..]);
      assert trimmed == [trimmed[0]] + trimmed[1..];
    }
  }

  lemma {:induction false} StripReturnsTrims(lines: seq<string>)
    ensures |StripReturns(lines)| == |lines|
    ensures forall k :: 0 <= k < |lines| ==> Trim(StripReturns(lines)[k]) == Trim(lines[k])
  {
    if lines != [] {
      TrimStripReturn(lines[0]);
      StripReturnsTrims(lines[1..]);
    }
  }

  lemma {:induction false} StripReturnsConcat(a: seq<string>, b: seq<string>)
    ensures StripReturns(a + b) == StripReturns(a) + StripReturns(b)
  {
    if a == [] {
      assert a + b == b;
    } else {
      var line, rest := a[0], a[1..];
      assert a == [line] + rest && a + b == [line] + (rest + b);
      assert ([line] + (rest + b))[1..] == rest + b;
      StripReturnsConcat(rest, b);
      Assoc([StripReturn(line)], StripReturns(rest), StripReturns(b));
    }
  }

  lemma LinesOfTerminated(lines: seq<string>, after: string)
    requires Separated(lines, '\n')
    ensures Lines(Terminate(lines, '\n') + after) == StripReturns(lines) + Lines(after)
  {
    CompleteTerminate(lines, '\n', after);
    StripReturnsConcat(lines, Complete(after, '\n'));
    Assoc(StripReturns(lines), StripReturns(Complete(after, '\n')),
          if Rest(after, '\n') == [] then [] else [Rest(after, '\n')]);
  }

  /**
   What is gathered from any lines: everything between the first begin marker and the end
   marker after it, or to the end if there is none, trimmed and joined; nothing without a begin
   marker, or when an end marker comes first.
   */
  lemma BlockText(tag: Label, before: seq<string>, begin: string, middle: seq<string>, end: string, after: seq<string>)
    requires NoMarker(tag, before) && NoMarker(tag, middle)
    requires Trim(begin) == tag.Begin() && Trim(end) == tag.End()
    ensures Body(tag, before + ([begin] + (middle + ([end] + after))), false) == Flatten(Trims(middle))
    ensures Body(tag, before + ([begin] + middle), false) == Flatten(Trims(middle))
    ensures Body(tag, before, false) == "" == Body(tag, before + ([end] + after), false)
  {
    assert tag.Begin() != tag.End() by { MarkersAreTight(tag); }
    BodySkips(tag, before, [begin] + (middle + ([end] + after)));
    BodyCons(tag, begin, middle + ([end] + after), false);
    BodyGathers(tag, middle, [end] + after);
    BodyCons(tag, end, after, true);
    BodySkips(tag, before, [begin] + middle);
    BodyCons(tag, begin, middle, false);
    BodyGathers(tag, middle, []);
    assert middle + [] == middle && before + [] == before;
    BodySkips(tag, before, []);
    BodySkips(tag, before, [end] + after);
    BodyCons(tag, end, after, false);
  }

  /** The three answers, told from the gathered text: nothing there, not base64, or the bytes that it encodes. */
  lemma DecodedIff(tag: Label, pem: string, der: seq<Byte>)
    ensures var text, r := Body(tag, Lines(pem), false), Decoded(tag, pem);
      && (r == Err(NoBlock) <==> text == "")
      && (r == Ok(der) <==> text != "" && text == Base64.Encode(Base64.Standard, true, der))
      && (r == Err(BadBase64) <==> text != "" && forall d :: text != Base64.Encode(Base64.Standard, true, d))
  {
    var text := Body(tag, Lines(pem), false);
    if Base64.Decode(text).Some? {
      Base64.EncodeDecode(text);
    }
    forall d | text == Base64.Encode(Base64.Standard, true, d)
      ensures Base64.Decode(text) == Some(d)
    {
      Base64.DecodeEncode(d);
    }
  }

  /** The 25 characters that trimming takes away. */
  lemma WhitespaceIs(c: char)
    ensures IsWhitespace(c) <==>
      || c in "\U{000009}\U{00000A}\U{00000B}\U{00000C}\U{00000D}\U{000020}\U{000085}\U{0000A0}\U{001680}"
      || c in "\U{002000}\U{002001}\U{002002}\U{002003}\U{002004}\U{002005}\U{002006}\U{002007}\U{002008}\U{002009}\U{00200A}"
      || c in "\U{002028}\U{002029}\U{00202F}\U{00205F}\U{003000}"
  {
  }

  /** A last line counts whether or not a line feed ends it; a return before the line feed does not. */
  lemma LinesAre(lines: seq<string>, last: string)
    requires Separated(lines, '\n') && '\n' !in last
    ensures Lines(Terminate(lines, '\n') + last) == StripReturns(lines) + if last == "" then [] else [last]
    ensures forall line :: StripReturn(line + "\r") == line
    ensures forall line :: line == "" || line[|line| - 1] != '\r' ==> StripReturn(line) == line
  {
    LinesOfTerminated(lines, last);
    CompleteNone(last, '\n');
    forall line: string
      ensures StripReturn(line + "\r") == line
    {
      assert (line + "\r")[..|line|] == line;
    }
  }

  // ---- The lines that the printer writes --------------------------------------------

  lemma MarkersAreTight(tag: Label)
    ensures Tight(tag.Begin()) && Tight(tag.End())
    ensures tag.Begin()[0] == '-' && tag.End()[0] == '-'
    ensures tag.Begin() != tag.End()
  {
    assert tag.Begin()[5] == 'B' && tag.End()[5] == 'E';
  }

  lemma Base64IsTight(der: seq<Byte>, c: char)
    requires c in Base64.Encode(Base64.Standard, true, der)
    ensures !IsWhitespace(c) && c != '-' && c != '\n'
  {
    Base64.EncodedCharacters(Base64.Standard, true, der);
    assert Base64.IsTextOf(Base64.Standard, true, c);
  }

  ghost predicate IsBodyLine(line: string) {
    Tight(line) && line[0] != '-' && '\n' !in line
  }

  lemma BodyLinesAreTight(der: seq<Byte>)
    ensures forall line :: line in Chunks(Base64.Encode(Base64.Standard, true, der)) ==> IsBodyLine(line)
  {
    var text := Base64.Encode(Base64.Standard, true, der);
    ChunksLayout(text);
    forall line | line in Chunks(text) ensures IsBodyLine(line) {
      var k :| 0 <= k < |Chunks(text)| && Chunks(text)[k] == line;
      forall c | c in line ensures !IsWhitespace(c) && c != '-' && c != '\n' {
        Base64IsTight(der, c);
      }
    }
  }

  lemma BlockBody(tag: Label, der: seq<Byte>, first: string, middle: seq<string>, last: string, more: seq<string>)
    requires Trim(first) == tag.Begin() && Trim(last) == tag.End()
    requires Trims(middle) == Chunks(Base64.Encode(Base64.Standard, true, der))
    requires NoMarker(tag, middle)
    ensures Body(tag, [first] + (middle + ([last] + more)), false) == Base64.Encode(Base64.Standard, true, der)
  {
    MarkersAreTight(tag);
    BodyCons(tag, first, middle + ([last] + more), false);
    BodyGathers(tag, middle, [last] + more);
    BodyCons(tag, last, more, true);
    ChunksLayout(Base64.Encode(Base64.Standard, true, der));
  }

  lemma MiddleTrims(tag: Label, der: seq<Byte>, middle: seq<string>, body: seq<string>)
    requires body == Chunks(Base64.Encode(Base64.Standard, true, der))
    requires |middle| == |body| && forall k :: 0 <= k < |body| ==> Trim(middle[k]) == body[k]
    ensures Trims(middle) == body && NoMarker(tag, middle)
  {
    BodyIsNoMarker(tag, der, middle);
    TrimsMatch(middle, body);
  }

  /** Lines that trim to the printed ones gather exactly the printed base64 text. */
  lemma ArmoredBody(tag: Label, der: seq<Byte>, padded: seq<string>, more: seq<string>)
    requires |padded| == |ArmorLines(tag, der)|
    requires forall k :: 0 <= k < |padded| ==> Trim(padded[k]) == ArmorLines(tag, der)[k]
    ensures Body(tag, padded + more, false) == Base64.Encode(Base64.Standard, true, der)
  {
    var armor, body := ArmorLines(tag, der), Chunks(Base64.Encode(Base64.Standard, true, der));
    var n := |body|;
    ArmorLinesAt(tag, der);
    var first, middle, last := padded[0], padded[1..n + 1], padded[n + 1];
    assert Trim(first) == armor[0] && Trim(last) == armor[n + 1];
    forall k | 0 <= k < n
      ensures Trim(middle[k]) == body[k]
    {
      assert middle[k] == padded[k + 1] && armor[k + 1] == body[k];
    }
    MiddleTrims(tag, der, middle, body);
    BlockBody(tag, der, first, middle, last, more);
    assert padded + more == [first] + (middle + ([last] + more));
  }

  lemma ArmorLinesAt(tag: Label, der: seq<Byte>)
    ensures var armor, body := ArmorLines(tag, der), Chunks(Base64.Encode(Base64.Standard, true, der));
      && |armor| == |body| + 2
      && armor[0] == tag.Begin() && armor[|body| + 1] == tag.End()
      && forall k :: 0 <= k < |body| ==> armor[k + 1] == body[k]
  {
  }

  lemma BodyIsNoMarker(tag: Label, der: seq<Byte>, middle: seq<string>)
    requires var body := Chunks(Base64.Encode(Base64.Standard, true, der));
      |middle| == |body| && forall k :: 0 <= k < |body| ==> Trim(middle[k]) == body[k]
    ensures NoMarker(tag, middle)
  {
    var body := Chunks(Base64.Encode(Base64.Standard, true, der));
    MarkersAreTight(tag);
    BodyLinesAreTight(der);
    forall k | 0 <= k < |middle|
      ensures Trim(middle[k]) != tag.Begin() && Trim(middle[k]) != tag.End()
    {
      assert IsBodyLine(body[k]);
    }
  }

  // ---- Round trip -------------------------------------------------------------------

  /** The printed base64 text is gathered from its padded lines, wherever they stand in a text. */
  lemma BodyOfText(tag: Label, der: seq<Byte>, before: seq<string>, padded: seq<string>, after: string)
    requires Separated(before, '\n') && NoMarker(tag, before)
    requires Separated(padded, '\n') && |padded| == |ArmorLines(tag, der)|
    requires forall k :: 0 <= k < |padded| ==> Trim(padded[k]) == ArmorLines(tag, der)[k]
    ensures Body(tag, Lines(Terminate(before, '\n') + Terminate(padded, '\n') + after), false)
         == Base64.Encode(Base64.Standard, true, der)
  {
    var pre, block := StripReturns(before), StripReturns(padded);
    Assoc(Terminate(before, '\n'), Terminate(padded, '\n'), after);
    LinesOfTerminated(before, Terminate(padded, '\n') + after);
    LinesOfTerminated(padded, after);
    StripReturnsTrims(before);
    StripReturnsTrims(padded);
    BodySkips(tag, pre, block + Lines(after));
    ArmoredBody(tag, der, block, Lines(after));
  }

  /**
   A printed block is read back exactly, wherever it stands in a text: its lines may be
   padded with whitespace, lines without a marker may come before it, anything may follow.
   */
  lemma DecodeTolerates(tag: Label, der: seq<Byte>, before: seq<string>, padded: seq<string>, after: string)
    requires Separated(before, '\n') && NoMarker(tag, before)
    requires Separated(padded, '\n') && |padded| == |ArmorLines(tag, der)|
    requires forall k :: 0 <= k < |padded| ==> Trim(padded[k]) == ArmorLines(tag, der)[k]
    ensures Decoded(tag, Terminate(before, '\n') + Terminate(padded, '\n') + after)
         == if der == [] then Err(NoBlock) else Ok(der)
  {
    BodyOfText(tag, der, before, padded, after);
    Base64.DecodeEncode(der);
    Base64.EncodedEmptyIff(der);
  }

  lemma TrimTight(s: string)
    requires Tight(s)
    ensures Trim(s) == s
  {
    TrimPadded([], s, []);
    assert [] + s + [] == s;
  }

  /** The round trip holds for every byte string but the empty one, for which no block is found. */
  lemma RoundTripIff(tag: Label, der: seq<Byte>)
    ensures Decoded(tag, Armor(tag, der)) == Ok(der) <==> der != []
    ensures der == [] ==> Decoded(tag, Armor(tag, der)) == Err(NoBlock)
  {
    var lines := ArmorLines(tag, der);
    ArmorLinesAreTight(tag, der);
    TightLinesAreTrimmed(lines);
    NothingAround(Terminate(lines, '\n'));
    DecodeTolerates(tag, der, [], lines, []);
  }

  lemma NothingAround(text: string)
    ensures Terminate([], '\n') + text + [] == text
  {
  }

  lemma TightLinesAreTrimmed(lines: seq<string>)
    requires forall k :: 0 <= k < |lines| ==> Tight(lines[k])
    ensures forall k :: 0 <= k < |lines| ==> Trim(lines[k]) == lines[k]
  {
    forall k | 0 <= k < |lines| ensures Trim(lines[k]) == lines[k] {
      TrimTight(lines[k]);
    }
  }

  lemma ArmorLinesAreTight(tag: Label, der: seq<Byte>)
    ensures var lines := ArmorLines(tag, der);
      forall k :: 0 <= k < |lines| ==> Tight(lines[k]) && '\n' !in lines[k]
  {
    var lines, body := ArmorLines(tag, der), Chunks(Base64.Encode(Base64.Standard, true, der));
    MarkersAreTight(tag);
    MarkersHaveNoNewline(tag);
    BodyLinesAreTight(der);
    forall k | 0 <= k < |lines| ensures Tight(lines[k]) && '\n' !in lines[k] {
      if 0 < k <= |body| {
        assert lines[k] == body[k - 1] && IsBodyLine(body[k - 1]);
      } else {
        assert lines[k] == if k == 0 then tag.Begin() else tag.End();
      }
    }
  }

  lemma MarkersHaveNoNewline(tag: Label)
    ensures '\n' !in tag.Begin() && '\n' !in tag.End()
  {
  }

  /** Printing and reading back through the two loops. */
  method PublicKeyRoundTrip(der: seq<Byte>) returns (r: Result<seq<Byte>, PemError>)
    ensures r == if der == [] then Err(NoBlock) else Ok(der)
  {
    var pem := SpkiDerToPublicKeyPem(der);
    r := DecodePem(PublicKey, pem);
    RoundTripIff(PublicKey, der);
  }
}
