/**
 Base64 (sections 4 and 5 of RFC 4648): the padded standard alphabet with its strict
 decoder, and the unpadded URL-safe alphabet.

 Both directions go through the bits, taken two at a time: a byte is four such pairs and a
 digit stands for three.
 */
module Base64 {
  import opened Wrappers
  import opened Segments
  import opened Utf8

  datatype Alphabet = Standard | UrlSafe

  type Sextet = v: int | 0 <= v < 64

  /** Two bits. */
  type Pair = p: int | 0 <= p < 4

  const PAD := '='

  // ---- Bytes and sextets as bits ----------------------------------------------------

  /** How many values `k` pairs have. */
  function Range(k: nat): nat {
    if k == 0 then 1 else 4 * Range(k - 1)
  }

  /** The lowest `k` pairs of a number, the highest of them first. */
  function Pairs(n: nat, k: nat): (bits: seq<Pair>)
    ensures |bits| == k
  {
    if k == 0 then [] else Pairs(n / 4, k - 1) + [n % 4]
  }

  function Number(bits: seq<Pair>): nat {
    if bits == [] then 0 else 4 * Number(bits[..|bits| - 1]) + bits[|bits| - 1]
  }

  lemma {:induction false} NumberOfPairs(n: nat, k: nat)
    requires n < Range(k)
    ensures Number(Pairs(n, k)) == n
  {
    if k > 0 {
      NumberOfPairs(n / 4, k - 1);
      assert Pairs(n, k)[..k - 1] == Pairs(n / 4, k - 1);
    }
  }

  lemma {:induction false} PairsOfNumber(bits: seq<Pair>)
    ensures Number(bits) < Range(|bits|)
    ensures Pairs(Number(bits), |bits|) == bits
  {
    if bits != [] {
      var front, last := bits[..|bits| - 1], bits[|bits| - 1];
      PairsOfNumber(front);
      assert bits == front + [last];
    }
  }

  lemma Ranges()
    ensures Range(3) == 64 && Range(4) == 256
  {
  }

  function BitsOfByte(b: Byte): seq<Pair> {
    Pairs(b, 4)
  }

  function BitsOfSextet(s: Sextet): seq<Pair> {
    Pairs(s, 3)
  }

  function ByteOf(bits: seq<Pair>): Byte
    requires |bits| == 4
  {
    PairsOfNumber(bits);
    Ranges();
    Number(bits)
  }

  function SextetOf(bits: seq<Pair>): Sextet
    requires |bits| == 3
  {
    PairsOfNumber(bits);
    Ranges();
    Number(bits)
  }

  function BitsOfBytes(bytes: seq<Byte>): seq<Pair> {
    if bytes == [] then [] else BitsOfByte(bytes[0]) + BitsOfBytes(bytes[1..])
  }

  function BitsOfSextets(ss: seq<Sextet>): seq<Pair> {
    if ss == [] then [] else BitsOfSextet(ss[0]) + BitsOfSextets(ss[1..])
  }

  /** Bits in threes, with zeros where they run out. */
  function Sextets(bits: seq<Pair>): seq<Sextet> {
    if bits == [] then []
    else if |bits| == 1 then [SextetOf(bits + [0, 0])]
    else if |bits| == 2 then [SextetOf(bits + [0])]
    else [SextetOf(bits[..3])] + Sextets(bits[3..])
  }

  ghost predicate Zeros(bits: seq<Pair>) {
    |bits| < 3 && forall k :: 0 <= k < |bits| ==> bits[k] == 0
  }

  /** Bits in fours. At most two pairs may be left over, and they must be zero. */
  function Bytes(bits: seq<Pair>): Option<seq<Byte>> {
    if |bits| < 4 then
      if |bits| == 3 || (|bits| > 0 && bits[0] != 0) || (|bits| > 1 && bits[1] != 0) then None else Some([])
    else
      match Bytes(bits[4..])
      case None => None
      case Some(rest) => Some([ByteOf(bits[..4])] + rest)
  }

  lemma BytesCons(four: seq<Pair>, more: seq<Pair>)
    requires |four| == 4
    ensures Bytes(four + more) ==
      if Bytes(more).None? then None else Some([ByteOf(four)] + Bytes(more).value)
  {
    assert (four + more)[..4] == four && (four + more)[4..] == more;
  }

  lemma {:induction false} BytesOfBits(bytes: seq<Byte>, zeros: seq<Pair>)
    requires Zeros(zeros)
    ensures Bytes(BitsOfBytes(bytes) + zeros) == Some(bytes)
  {
    if bytes != [] {
      var four, more := BitsOfByte(bytes[0]), BitsOfBytes(bytes[1..]);
      BytesOfBits(bytes[1..], zeros);
      BytesCons(four, more + zeros);
      Ranges();
      NumberOfPairs(bytes[0], 4);
      Assoc(four, more, zeros);
      assert bytes == [bytes[0]] + bytes[1..];
    } else {
      assert [] + zeros == zeros;
    }
  }

  lemma {:induction false} BitsOfDecoded(bits: seq<Pair>) returns (zeros: seq<Pair>)
    requires Bytes(bits).Some?
    ensures Zeros(zeros) && bits == BitsOfBytes(Bytes(bits).value) + zeros
  {
    if |bits| < 4 {
      zeros := bits;
    } else {
      zeros := BitsOfDecoded(bits[4..]);
      var bytes := Bytes(bits).value;
      PairsOfNumber(bits[..4]);
      assert bytes[1..] == Bytes(bits[4..]).value;
      assert bits == bits[..4] + bits[4..];
      Assoc(bits[..4], BitsOfBytes(bytes[1..]), zeros);
    }
  }

  lemma {:induction false} BitsOfGrouped(bits: seq<Pair>) returns (zeros: seq<Pair>)
    ensures Zeros(zeros) && BitsOfSextets(Sextets(bits)) == bits + zeros
  {
    if bits == [] {
      zeros := [];
    } else if |bits| < 3 {
      zeros := if |bits| == 1 then [0, 0] else [0];
      PairsOfNumber(bits + zeros);
      assert BitsOfSextets(Sextets(bits)[1..]) == [];
    } else {
      var three, more := bits[..3], bits[3..];
      zeros := BitsOfGrouped(more);
      PairsOfNumber(three);
      assert Sextets(bits)[1..] == Sextets(more);
      assert bits == three + more;
      Assoc(three, more, zeros);
    }
  }

  lemma {:induction false} LengthOfGrouped(bits: seq<Pair>)
    ensures |Sextets(bits)| == (|bits| + 2) / 3
  {
    if |bits| > 2 {
      LengthOfGrouped(bits[3..]);
    }
  }

  lemma {:induction false} GroupedOfBits(ss: seq<Sextet>, bits: seq<Pair>, zeros: seq<Pair>)
    requires Zeros(zeros) && bits + zeros == BitsOfSextets(ss)
    ensures Sextets(bits) == ss
  {
    var all := bits + zeros;
    if ss != [] {
      Ranges();
      NumberOfPairs(ss[0], 3);
      assert all[..3] == BitsOfSextet(ss[0]);
      if |bits| > 2 {
        assert bits[..3] == all[..3];
        assert bits[3..] + zeros == all[3..] == BitsOfSextets(ss[1..]);
        GroupedOfBits(ss[1..], bits[3..], zeros);
        assert ss == [ss[0]] + ss[1..];
      } else {
        LengthOfBits(ss);
        assert ss == [ss[0]] && all == all[..3];
        assert |bits| == 1 ==> zeros == [0, 0];
        assert |bits| == 2 ==> zeros == [0];
        assert bits != [];
      }
    }
  }

  lemma {:induction false} LengthOfBits(ss: seq<Sextet>)
    ensures |BitsOfSextets(ss)| == 3 * |ss|
  {
    if ss != [] {
      LengthOfBits(ss[1..]);
    }
  }

  lemma {:induction false} LengthOfBytes(bytes: seq<Byte>)
    ensures |BitsOfBytes(bytes)| == 4 * |bytes|
  {
    if bytes != [] {
      LengthOfBytes(bytes[1..]);
    }
  }

  /** The sextets of whole bytes are never one more than a multiple of four. */
  lemma NeverOneOver(sextets: nat, bytes: nat, zeros: nat)
    requires 3 * sextets == 4 * bytes + zeros && zeros < 3
    ensures sextets % 4 != 1
  {
    assert sextets == 4 * (sextets / 4) + sextets % 4;
  }

  lemma NoSextetAlone(ss: seq<Sextet>, bytes: seq<Byte>, zeros: seq<Pair>)
    requires Zeros(zeros) && BitsOfSextets(ss) == BitsOfBytes(bytes) + zeros
    ensures |ss| % 4 != 1
  {
    LengthOfBits(ss);
    LengthOfBytes(bytes);
    NeverOneOver(|ss|, |bytes|, |zeros|);
  }

  // ---- Sextets as digits ------------------------------------------------------------

  function Digit(alphabet: Alphabet, v: Sextet): char {
    if v < 26 then ('A' as int + v) as char
    else if v < 52 then ('a' as int + (v - 26)) as char
    else if v < 62 then ('0' as int + (v - 52)) as char
    else if alphabet.Standard? then (if v == 62 then '+' else '/')
    else (if v == 62 then '-' else '_')
  }

  function Value(c: char): Option<Sextet> {
    if 'A' <= c <= 'Z' then Some(c as int - 'A' as int)
    else if 'a' <= c <= 'z' then Some(c as int - 'a' as int + 26)
    else if '0' <= c <= '9' then Some(c as int - '0' as int + 52)
    else if c == '+' then Some(62)
    else if c == '/' then Some(63)
    else None
  }

  lemma DigitIsItsValue(alphabet: Alphabet, v: Sextet, w: Sextet, c: char)
    ensures Value(Digit(Standard, v)) == Some(v)
    ensures Value(c).Some? ==> Digit(Standard, Value(c).value) == c
    ensures Digit(alphabet, v) == Digit(alphabet, w) <==> v == w
    ensures Digit(alphabet, v) != PAD
  {
  }

  function Digits(alphabet: Alphabet, ss: seq<Sextet>): string {
    seq(|ss|, k requires 0 <= k < |ss| => Digit(alphabet, ss[k]))
  }

  function Values(text: string): Option<seq<Sextet>> {
    if exists k :: 0 <= k < |text| && Value(text[k]).None? then None
    else Some(seq(|text|, k requires 0 <= k < |text| => Value(text[k]).value))
  }

  lemma ValuesOfDigits(ss: seq<Sextet>, text: string)
    ensures Values(Digits(Standard, ss)) == Some(ss)
    ensures Values(text).Some? ==> Digits(Standard, Values(text).value) == text
  {
    var digits := Digits(Standard, ss);
    forall k | 0 <= k < |ss|
      ensures Value(digits[k]) == Some(ss[k])
    {
      DigitIsItsValue(Standard, ss[k], ss[k], PAD);
    }
    assert Values(digits).Some? && Values(digits).value == ss;
    if Values(text).Some? {
      var vs := Values(text).value;
      forall k | 0 <= k < |text|
        ensures Digit(Standard, vs[k]) == text[k]
      {
        DigitIsItsValue(Standard, 0, 0, text[k]);
      }
      assert Digits(Standard, vs) == text;
    }
  }

  // ---- Encoder and strict decoder ---------------------------------------------------

  /** What fills a text of `digits` digits up to a multiple of four. */
  function Padding(digits: nat): string {
    if digits % 4 == 2 then [PAD, PAD] else if digits % 4 == 3 then [PAD] else []
  }

  function Encode(alphabet: Alphabet, padded: bool, bytes: seq<Byte>): string {
    var ss := Sextets(BitsOfBytes(bytes));
    Digits(alphabet, ss) + if padded then Padding(|ss|) else []
  }

  /** How many of the last two characters are padding. */
  function Pads(text: string): nat {
    if text == [] || text[|text| - 1] != PAD then 0
    else if |text| == 1 || text[|text| - 2] != PAD then 1 else 2
  }

  /** Padding is required, and only looked for at the end. */
  function Unpadded(text: string): Option<seq<Sextet>> {
    if |text| % 4 != 0 then None else Values(text[..|text| - Pads(text)])
  }

  function Decode(text: string): Option<seq<Byte>> {
    match Unpadded(text)
    case None => None
    case Some(ss) => Bytes(BitsOfSextets(ss))
  }

  lemma PadsOfPadded(digits: string)
    requires |digits| % 4 != 1 && PAD !in digits
    ensures var text := digits + Padding(|digits|);
      |text| % 4 == 0 && text[..|text| - Pads(text)] == digits
  {
    var text, n := digits + Padding(|digits|), |digits|;
    assert n > 0 ==> digits[n - 1] in digits && text[n - 1] == digits[n - 1];
    assert Pads(text) == |Padding(n)|;
  }

  lemma UnpaddedDigits(ss: seq<Sextet>)
    requires |ss| % 4 != 1
    ensures Unpadded(Digits(Standard, ss) + Padding(|ss|)) == Some(ss)
  {
    var digits := Digits(Standard, ss);
    ValuesOfDigits(ss, []);
    forall k | 0 <= k < |ss|
      ensures digits[k] != PAD
    {
      DigitIsItsValue(Standard, ss[k], 0, PAD);
    }
    PadsOfPadded(digits);
  }

  lemma DigitsOfUnpadded(text: string)
    requires Unpadded(text).Some? && |Unpadded(text).value| % 4 != 1
    ensures var ss := Unpadded(text).value; text == Digits(Standard, ss) + Padding(|ss|)
  {
    var digits := text[..|text| - Pads(text)];
    ValuesOfDigits([], digits);
    assert text == digits + text[|digits|..] && text[|digits|..] == Padding(|digits|);
  }

  lemma DecodeEncode(bytes: seq<Byte>)
    ensures Decode(Encode(Standard, true, bytes)) == Some(bytes)
  {
    var bits := BitsOfBytes(bytes);
    var zeros := BitsOfGrouped(bits);
    BytesOfBits(bytes, zeros);
    NoSextetAlone(Sextets(bits), bytes, zeros);
    UnpaddedDigits(Sextets(bits));
  }

  /** The decoder accepts only what the encoder writes. */
  lemma EncodeDecode(text: string)
    ensures Decode(text).Some? ==> Encode(Standard, true, Decode(text).value) == text
  {
    if Decode(text).Some? {
      var ss, bytes := Unpadded(text).value, Decode(text).value;
      var zeros := BitsOfDecoded(BitsOfSextets(ss));
      GroupedOfBits(ss, BitsOfBytes(bytes), zeros);
      NoSextetAlone(ss, bytes, zeros);
      DigitsOfUnpadded(text);
    }
  }

  lemma EncodedEmptyIff(bytes: seq<Byte>)
    ensures Encode(Standard, true, bytes) == [] <==> bytes == []
  {
    LengthOfGrouped(BitsOfBytes(bytes));
    LengthOfBytes(bytes);
  }

  ghost predicate IsTextOf(alphabet: Alphabet, padded: bool, c: char) {
    (padded && c == PAD) || exists v: Sextet :: c == Digit(alphabet, v)
  }

  /** Text holds only digits of its alphabet, and `=` when padded. */
  lemma EncodedCharacters(alphabet: Alphabet, padded: bool, bytes: seq<Byte>)
    ensures forall c :: c in Encode(alphabet, padded, bytes) ==> IsTextOf(alphabet, padded, c)
  {
    var ss := Sextets(BitsOfBytes(bytes));
    assert forall k :: 0 <= k < |ss| ==> IsTextOf(alphabet, padded, Digits(alphabet, ss)[k]);
  }

  /** Unpadded text has as many characters as the bits need. */
  lemma UnpaddedLength(alphabet: Alphabet, bytes: seq<Byte>)
    ensures |Encode(alphabet, false, bytes)| == (8 * |bytes| + 5) / 6
  {
    LengthOfGrouped(BitsOfBytes(bytes));
    LengthOfBytes(bytes);
  }

  /** Distinct byte strings have distinct unpadded texts. */
  lemma EncodeInjective(alphabet: Alphabet, x: seq<Byte>, y: seq<Byte>)
    requires Encode(alphabet, false, x) == Encode(alphabet, false, y)
    ensures x == y
  {
    var s, t := Sextets(BitsOfBytes(x)), Sextets(BitsOfBytes(y));
    var text := Encode(alphabet, false, x);
    assert text == Digits(alphabet, s) && text == Digits(alphabet, t) && |text| == |s| == |t|;
    forall k | 0 <= k < |s|
      ensures s[k] == t[k]
    {
      DigitIsItsValue(alphabet, s[k], t[k], PAD);
      assert text[k] == Digit(alphabet, s[k]) && text[k] == Digit(alphabet, t[k]);
    }
    assert s == t;
    var zeros := BitsOfGrouped(BitsOfBytes(x));
    var zeros' := BitsOfGrouped(BitsOfBytes(y));
    BytesOfBits(x, zeros);
    BytesOfBits(y, zeros');
  }

  // ---- The text of each group (section 4 of RFC 4648) -------------------------------

  /** The two alphabets (tables 1 and 2 of RFC 4648): letters, small letters, figures, and two signs of their own. */
  lemma DigitIs(alphabet: Alphabet, v: Sextet)
    ensures Digit(alphabet, 0) == 'A' && Digit(alphabet, 26) == 'a' && Digit(alphabet, 52) == '0'
    ensures v !in {25, 51, 61, 62, 63} ==> Digit(alphabet, v + 1) as int == Digit(alphabet, v) as int + 1
    ensures Digit(Standard, 62) == '+' && Digit(Standard, 63) == '/'
    ensures Digit(UrlSafe, 62) == '-' && Digit(UrlSafe, 63) == '_'
  {
  }

  lemma PairsOfByte(b: Byte)
    ensures BitsOfByte(b) == [b / 64, b / 16 % 4, b / 4 % 4, b % 4]
  {
    assert Pairs(b / 64, 1) == [b / 64];
    assert b / 4 / 4 == b / 16 && b / 16 / 4 == b / 64;
    assert Pairs(b / 16, 2) == [b / 64, b / 16 % 4];
    assert Pairs(b / 4, 3) == [b / 64, b / 16 % 4, b / 4 % 4];
  }

  lemma BitsCons(b: Byte, more: seq<Byte>)
    ensures BitsOfBytes([b] + more) == [b / 64, b / 16 % 4, b / 4 % 4, b % 4] + BitsOfBytes(more)
  {
    assert ([b] + more)[1..] == more;
    PairsOfByte(b);
  }

  lemma SextetIs(p: Pair, q: Pair, r: Pair)
    ensures SextetOf([p, q, r]) == 16 * p + 4 * q + r
  {
    assert [p, q, r][..2] == [p, q] && [p, q][..1] == [p] && [p][..0] == [];
    assert Number([p]) == p;
    assert Number([p, q]) == 4 * p + q;
  }

  lemma SextetsCons(p: Pair, q: Pair, r: Pair, more: seq<Pair>)
    ensures Sextets([p, q, r] + more) == [16 * p + 4 * q + r] + Sextets(more)
  {
    var bits := [p, q, r] + more;
    SextetIs(p, q, r);
    assert bits[..3] == [p, q, r] && bits[3..] == more;
  }

  lemma UpperSix(a: Byte)
    ensures 16 * (a / 64) + 4 * (a / 16 % 4) + a / 4 % 4 == a / 4
  {
  }

  lemma UpperFour(a: Byte)
    ensures 4 * (a / 64) + a / 16 % 4 == a / 16
  {
  }

  lemma LowerFour(a: Byte)
    ensures 4 * (a / 4 % 4) + a % 4 == a % 16
  {
  }

  lemma LowerSix(a: Byte)
    ensures 16 * (a / 16 % 4) + 4 * (a / 4 % 4) + a % 4 == a % 64
  {
    LowerFour(a);
  }

  lemma TwelvePairs(a: Byte, b: Byte, c: Byte, rest: seq<Pair>)
    ensures Sextets([a / 64, a / 16 % 4, a / 4 % 4] + ([a % 4, b / 64, b / 16 % 4]
                 + ([b / 4 % 4, b % 4, c / 64] + ([c / 16 % 4, c / 4 % 4, c % 4] + rest))))
         == [a / 4] + ([a % 4 * 16 + b / 16] + ([b % 16 * 4 + c / 64] + ([c % 64] + Sextets(rest))))
  {
    var fourth := [c / 16 % 4, c / 4 % 4, c % 4] + rest;
    var third := [b / 4 % 4, b % 4, c / 64] + fourth;
    var second := [a % 4, b / 64, b / 16 % 4] + third;
    SextetsCons(a / 64, a / 16 % 4, a / 4 % 4, second);
    SextetsCons(a % 4, b / 64, b / 16 % 4, third);
    SextetsCons(b / 4 % 4, b % 4, c / 64, fourth);
    SextetsCons(c / 16 % 4, c / 4 % 4, c % 4, rest);
    UpperSix(a);
    UpperFour(b);
    LowerFour(b);
    LowerSix(c);
  }

  lemma Regrouped(x: seq<Pair>, y: seq<Pair>, z: seq<Pair>, rest: seq<Pair>)
    requires |x| == |y| == |z| == 4
    ensures x + (y + (z + rest))
         == [x[0], x[1], x[2]] + ([x[3], y[0], y[1]] + ([y[2], y[3], z[0]] + ([z[1], z[2], z[3]] + rest)))
  {
  }

  /** Three bytes are four sextets. */
  lemma SextetsOfThree(a: Byte, b: Byte, c: Byte, more: seq<Byte>)
    ensures Sextets(BitsOfBytes([a] + ([b] + ([c] + more))))
         == [a / 4] + ([a % 4 * 16 + b / 16] + ([b % 16 * 4 + c / 64] + ([c % 64] + Sextets(BitsOfBytes(more)))))
  {
    BitsCons(a, [b] + ([c] + more));
    BitsCons(b, [c] + more);
    BitsCons(c, more);
    Regrouped([a / 64, a / 16 % 4, a / 4 % 4, a % 4], [b / 64, b / 16 % 4, b / 4 % 4, b % 4],
              [c / 64, c / 16 % 4, c / 4 % 4, c % 4], BitsOfBytes(more));
    TwelvePairs(a, b, c, BitsOfBytes(more));
  }

  /** One byte at the end is two sextets, and two bytes are three. */
  lemma SextetsOfOne(a: Byte)
    ensures Sextets(BitsOfBytes([a])) == [a / 4, a % 4 * 16]
  {
    BitsCons(a, []);
    assert [a] + [] == [a];
    assert BitsOfBytes([a]) == [a / 64, a / 16 % 4, a / 4 % 4] + [a % 4];
    SextetsCons(a / 64, a / 16 % 4, a / 4 % 4, [a % 4]);
    SextetIs(a % 4, 0, 0);
    assert [a % 4] + [0, 0] == [a % 4, 0, 0];
    UpperSix(a);
  }

  lemma SextetsOfTwo(a: Byte, b: Byte)
    ensures Sextets(BitsOfBytes([a, b])) == [a / 4, a % 4 * 16 + b / 16, b % 16 * 4]
  {
    BitsCons(a, [b]);
    BitsCons(b, []);
    assert [b] + [] == [b] && [a] + [b] == [a, b];
    var last := [b / 4 % 4, b % 4];
    var second := [a % 4, b / 64, b / 16 % 4] + last;
    assert BitsOfBytes([a, b]) == [a / 64, a / 16 % 4, a / 4 % 4] + second;
    SextetsCons(a / 64, a / 16 % 4, a / 4 % 4, second);
    SextetsCons(a % 4, b / 64, b / 16 % 4, last);
    SextetIs(b / 4 % 4, b % 4, 0);
    assert last + [0] == [b / 4 % 4, b % 4, 0];
    UpperSix(a);
    UpperFour(b);
    LowerFour(b);
  }

  lemma DigitsCons(alphabet: Alphabet, s: Sextet, more: seq<Sextet>)
    ensures Digits(alphabet, [s] + more) == [Digit(alphabet, s)] + Digits(alphabet, more)
  {
  }

  lemma DigitsOfFour(alphabet: Alphabet, p: Sextet, q: Sextet, r: Sextet, s: Sextet, more: seq<Sextet>)
    ensures Digits(alphabet, [p] + ([q] + ([r] + ([s] + more))))
         == [Digit(alphabet, p), Digit(alphabet, q), Digit(alphabet, r), Digit(alphabet, s)] + Digits(alphabet, more)
    ensures Padding(|[p] + ([q] + ([r] + ([s] + more)))|) == Padding(|more|)
  {
    DigitsCons(alphabet, p, [q] + ([r] + ([s] + more)));
    DigitsCons(alphabet, q, [r] + ([s] + more));
    DigitsCons(alphabet, r, [s] + more);
    DigitsCons(alphabet, s, more);
  }

  /** The text of a group of three bytes stands in front of the text of the rest. */
  lemma TextOfGroup(alphabet: Alphabet, padded: bool, a: Byte, b: Byte, c: Byte, more: seq<Byte>)
    ensures Encode(alphabet, padded, [a] + ([b] + ([c] + more)))
         == [Digit(alphabet, a / 4), Digit(alphabet, a % 4 * 16 + b / 16), Digit(alphabet, b % 16 * 4 + c / 64),
             Digit(alphabet, c % 64)] + Encode(alphabet, padded, more)
  {
    var rest := Sextets(BitsOfBytes(more));
    var p: Sextet, q: Sextet, r: Sextet, s: Sextet := a / 4, a % 4 * 16 + b / 16, b % 16 * 4 + c / 64, c % 64;
    SextetsOfThree(a, b, c, more);
    DigitsOfFour(alphabet, p, q, r, s, rest);
    var padding := if padded then Padding(|rest|) else [];
    Assoc([Digit(alphabet, p), Digit(alphabet, q), Digit(alphabet, r), Digit(alphabet, s)],
          Digits(alphabet, rest), padding);
  }

  /** The text of the last group, which alone is padded. */
  lemma TextOfEnd(alphabet: Alphabet, padded: bool, a: Byte, b: Byte)
    ensures Encode(alphabet, padded, []) == ""
    ensures Encode(alphabet, padded, [a])
         == [Digit(alphabet, a / 4), Digit(alphabet, a % 4 * 16)] + if padded then "==" else ""
    ensures Encode(alphabet, padded, [a, b])
         == [Digit(alphabet, a / 4), Digit(alphabet, a % 4 * 16 + b / 16), Digit(alphabet, b % 16 * 4)]
          + if padded then "=" else ""
  {
    SextetsOfOne(a);
    SextetsOfTwo(a, b);
  }
}
