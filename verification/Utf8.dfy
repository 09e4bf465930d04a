/**
 UTF-8 as `std::str::from_utf8` accepts it: the well-formed byte sequences of
 table 3-7 of the Unicode Standard, and nothing else.
 */
module Utf8 {
  import opened Wrappers

  type Byte = b: int | 0 <= b < 256

  const LF: Byte := 10
  const CR: Byte := 13

  function EncodeChar(c: char): (bytes: seq<Byte>)
    ensures 1 <= |bytes| <= 4
  {
    var n := c as int;
    var n64 := n / 64;
    var n4096 := n64 / 64;
    if n < 0x80 then [n]
    else if n < 0x800 then [0xC0 + n64, 0x80 + n % 64]
    else if n < 0x10000 then [0xE0 + n4096, 0x80 + n64 % 64, 0x80 + n % 64]
    else [0xF0 + n4096 / 64, 0x80 + n4096 % 64, 0x80 + n64 % 64, 0x80 + n % 64]
  }

  function Encode(s: string): (bytes: seq<Byte>) {
    if s == [] then [] else EncodeChar(s[0]) + Encode(s[1..])
  }

  predicate Continuation(b: Byte) {
    0x80 <= b < 0xC0
  }

  datatype Scalar = Scalar(c: char, width: nat)

  /** The six payload bits of a continuation byte. */
  function Payload(b: Byte): (r: int)
    requires Continuation(b)
    ensures 0 <= r < 64 && b == 0x80 + r
  {
    b as int - 0x80
  }

  function Combine(high: int, low: int): int {
    64 * high + low
  }

  /** The first character of `b`, or `None` when `b` does not start with one. */
  function DecodeOne(b: seq<Byte>): (r: Option<Scalar>)
    ensures r.Some? ==> 1 <= r.value.width <= |b|
  {
    if b == [] then None
    else if b[0] < 0x80 then Some(Scalar(b[0] as char, 1))
    else if 0xC2 <= b[0] < 0xE0 && |b| >= 2 && Continuation(b[1]) then
      Some(Scalar(Combine(b[0] as int - 0xC0, Payload(b[1])) as char, 2))
    else if 0xE0 <= b[0] < 0xF0 && |b| >= 3 && Continuation(b[1]) && Continuation(b[2]) then
      var n := Combine(Combine(b[0] as int - 0xE0, Payload(b[1])), Payload(b[2]));
      if n < 0x800 || 0xD800 <= n < 0xE000 then None else Some(Scalar(n as char, 3))
    else if 0xF0 <= b[0] < 0xF5 && |b| >= 4
         && Continuation(b[1]) && Continuation(b[2]) && Continuation(b[3]) then
      var n := Combine(Combine(Combine(b[0] as int - 0xF0, Payload(b[1])), Payload(b[2])), Payload(b[3]));
      if n < 0x10000 || 0x110000 <= n then None else Some(Scalar(n as char, 4))
    else None
  }

  function Decode(b: seq<Byte>): (r: Option<string>)
    decreases |b|
  {
    if b == [] then Some([])
    else match DecodeOne(b)
      case None => None
      case Some(first) =>
        match Decode(b[first.width..])
        case None => None
        case Some(rest) => Some([first.c] + rest)
  }

  lemma DecodeOneEncodeChar(c: char, more: seq<Byte>)
    ensures DecodeOne(EncodeChar(c) + more) == Some(Scalar(c, |EncodeChar(c)|))
  {
    var n := c as int;
    var b := EncodeChar(c) + more;
    assert b[0] == EncodeChar(c)[0];
    if 0x80 <= n {
      assert b[1] == EncodeChar(c)[1];
    }
    if 0x800 <= n {
      assert b[2] == EncodeChar(c)[2];
    }
    if 0x10000 <= n {
      assert b[3] == EncodeChar(c)[3];
    }
  }

  lemma CombineDigits(high: int, low: int)
    requires 0 <= low < 64
    ensures Combine(high, low) / 64 == high && Combine(high, low) % 64 == low
  {
  }

  lemma EncodeCharDecodeOne(b: seq<Byte>)
    requires DecodeOne(b).Some?
    ensures EncodeChar(DecodeOne(b).value.c) == b[..DecodeOne(b).value.width]
  {
    var r := DecodeOne(b).value;
    if r.width == 1 {
      assert EncodeChar(r.c) == [b[0]];
    } else if r.width == 2 {
      CombineDigits(b[0] as int - 0xC0, Payload(b[1]));
      assert EncodeChar(r.c) == [b[0], b[1]];
    } else if r.width == 3 {
      var high := Combine(b[0] as int - 0xE0, Payload(b[1]));
      CombineDigits(b[0] as int - 0xE0, Payload(b[1]));
      CombineDigits(high, Payload(b[2]));
      assert EncodeChar(r.c) == [b[0], b[1], b[2]];
    } else {
      var top := Combine(b[0] as int - 0xF0, Payload(b[1]));
      var high := Combine(top, Payload(b[2]));
      CombineDigits(b[0] as int - 0xF0, Payload(b[1]));
      CombineDigits(top, Payload(b[2]));
      CombineDigits(high, Payload(b[3]));
      assert EncodeChar(r.c) == [b[0], b[1], b[2], b[3]];
    }
  }

  lemma {:induction false} DecodeEncode(s: string)
    ensures Decode(Encode(s)) == Some(s)
  {
    if s != [] {
      var more := Encode(s[1..]);
      DecodeOneEncodeChar(s[0], more);
      DecodeEncode(s[1..]);
      assert Encode(s)[|EncodeChar(s[0])|..] == more;
      assert [s[0]] + s[1..] == s;
    }
  }

  lemma {:induction false} EncodeDecode(b: seq<Byte>)
    requires Decode(b).Some?
    ensures Encode(Decode(b).value) == b
    decreases |b|
  {
    if b != [] {
      var first := DecodeOne(b).value;
      EncodeCharDecodeOne(b);
      var rest := Decode(b[first.width..]).value;
      assert ([first.c] + rest)[1..] == rest;
      calc {
        Encode([first.c] + rest);
        EncodeChar(first.c) + Encode(rest);
        { EncodeDecode(b[first.width..]); }
        b[..first.width] + b[first.width..];
        b;
      }
    }
  }

  lemma {:induction false} EncodeConcat(a: string, b: string)
    ensures Encode(a + b) == Encode(a) + Encode(b)
  {
    if a == [] {
      assert a + b == b;
    } else {
      assert (a + b)[1..] == a[1..] + b;
      EncodeConcat(a[1..], b);
    }
  }

  /** An ASCII byte occurs in the encoding only where its character occurs. */
  lemma {:induction false} EncodeAscii(s: string, b: Byte)
    requires b < 0x80
    requires b as char !in s
    ensures b !in Encode(s)
  {
    if s != [] {
      assert s[0] in s && s[0] != b as char;
      assert b !in EncodeChar(s[0]);
      EncodeAscii(s[1..], b);
    }
  }
}
