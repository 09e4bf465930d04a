/**
 PKCE with S256 (sections 4.1, 4.2 and 4.6 of RFC 7636): the client half in
 `ferridis-protocol/src/oauth.rs` and the server half in
 `ferridis-mcp-server/src/oauth_server.rs`.
 */
module Pkce {
  import opened Utf8
  import Base64

  /** SHA-256, of which only the length of its result is known. */
  type Digest = f: seq<Byte> -> seq<Byte> | forall m :: |f(m)| == 32
    witness (m: seq<Byte>) => seq(32, _ => 0 as Byte)

  const VERIFIER_BYTES := 32

  function UrlSafeNoPad(bytes: seq<Byte>): string {
    Base64.Encode(Base64.UrlSafe, false, bytes)
  }

  function GenerateVerifier(random: seq<Byte>): string
    requires |random| == VERIFIER_BYTES
  {
    UrlSafeNoPad(random)
  }

  function Challenge(sha: Digest, verifier: string): string {
    UrlSafeNoPad(sha(Encode(verifier)))
  }

  predicate Accepts(sha: Digest, verifier: string, challenge: string) {
    43 <= |Encode(verifier)| <= 128 && Challenge(sha, verifier) == challenge
  }

  lemma XorAccumulates(diff: bv8, x: bv8, y: bv8)
    ensures diff | (x ^ y) == 0 <==> diff == 0 && x == y
  {
  }

  type Nibble = n: int | 0 <= n < 16

  /** The eight bits of a byte. */
  function Bits(x: Byte): bv8 {
    ((x / 16) as bv8 << 4) | (x % 16) as bv8
  }

  lemma BitsOfNibble(n: Nibble)
    ensures (n as bv8) as int == n && (n as bv8) & 0xF0 == 0
  {
  }

  lemma HalvesOfBits(h: bv8, l: bv8, h': bv8, l': bv8)
    requires h & 0xF0 == 0 && l & 0xF0 == 0 && h' & 0xF0 == 0 && l' & 0xF0 == 0
    ensures (h << 4) | l == (h' << 4) | l' <==> h == h' && l == l'
  {
  }

  lemma SameBits(x: Byte, y: Byte)
    ensures Bits(x) == Bits(y) <==> x == y
  {
    BitsOfNibble(x / 16);
    BitsOfNibble(x % 16);
    BitsOfNibble(y / 16);
    BitsOfNibble(y % 16);
    HalvesOfBits((x / 16) as bv8, (x % 16) as bv8, (y / 16) as bv8, (y % 16) as bv8);
  }

  /** The comparison that looks at every byte: it is byte equality. */
  method ConstantTimeEquals(a: seq<Byte>, b: seq<Byte>) returns (same: bool)
    ensures same <==> a == b
  {
    if |a| != |b| {
      return false;
    }
    var diff: bv8 := 0;
    var i := 0;
    while i < |a|
      invariant i <= |a|
      invariant diff == 0 <==> a[..i] == b[..i]
    {
      XorAccumulates(diff, Bits(a[i]), Bits(b[i]));
      SameBits(a[i], b[i]);
      diff := diff | (Bits(a[i]) ^ Bits(b[i]));
      assert a[..i + 1] == a[..i] + [a[i]] && b[..i + 1] == b[..i] + [b[i]];
      i := i + 1;
    }
    assert a[..i] == a && b[..i] == b;
    return diff == 0;
  }

  method VerifyPkceS256(sha: Digest, verifier: string, challenge: string) returns (ok: bool)
    ensures ok <==> Accepts(sha, verifier, challenge)
  {
    var bytes := Encode(verifier);
    if |bytes| < 43 || |bytes| > 128 {
      return false;
    }
    var computed := UrlSafeNoPad(sha(bytes));
    ok := ConstantTimeEquals(Encode(computed), Encode(challenge));
    DecodeEncode(computed);
    DecodeEncode(challenge);
  }

  predicate Unreserved(c: char) {
    'A' <= c <= 'Z' || 'a' <= c <= 'z' || '0' <= c <= '9' || c == '-' || c == '.' || c == '_' || c == '~'
  }

  lemma UrlSafeIsUnreserved(bytes: seq<Byte>)
    ensures forall c :: c in UrlSafeNoPad(bytes) ==> Unreserved(c)
  {
    Base64.EncodedCharacters(Base64.UrlSafe, false, bytes);
    forall c | c in UrlSafeNoPad(bytes) ensures Unreserved(c) {
      assert Base64.IsTextOf(Base64.UrlSafe, false, c);
    }
  }

  lemma {:induction false} AsciiLength(s: string)
    requires forall k :: 0 <= k < |s| ==> s[k] as int < 0x80
    ensures |Encode(s)| == |s|
  {
    if s != [] {
      AsciiLength(s[1..]);
    }
  }

  /** A generated verifier is one RFC 7636 allows, at its minimum length. */
  lemma GeneratedVerifierIsValid(random: seq<Byte>)
    requires |random| == VERIFIER_BYTES
    ensures |GenerateVerifier(random)| == 43
    ensures forall c :: c in GenerateVerifier(random) ==> Unreserved(c)
    ensures |Encode(GenerateVerifier(random))| == 43
  {
    Base64.UnpaddedLength(Base64.UrlSafe, random);
    UrlSafeIsUnreserved(random);
    var verifier := GenerateVerifier(random);
    forall k | 0 <= k < |verifier| ensures verifier[k] as int < 0x80 {
      assert Unreserved(verifier[k]);
    }
    AsciiLength(verifier);
  }

  /**
   The halves agree: the server accepts a verifier for the challenge of a generated one
   exactly when its length is legal and its digest is the same. The generated one qualifies.
   */
  lemma HalvesAgree(sha: Digest, random: seq<Byte>, verifier: string)
    requires |random| == VERIFIER_BYTES
    ensures Accepts(sha, verifier, Challenge(sha, GenerateVerifier(random))) <==>
      43 <= |Encode(verifier)| <= 128 && sha(Encode(verifier)) == sha(Encode(GenerateVerifier(random)))
    ensures Accepts(sha, GenerateVerifier(random), Challenge(sha, GenerateVerifier(random)))
  {
    GeneratedVerifierIsValid(random);
    if Challenge(sha, verifier) == Challenge(sha, GenerateVerifier(random)) {
      Base64.EncodeInjective(Base64.UrlSafe, sha(Encode(verifier)), sha(Encode(GenerateVerifier(random))));
    }
  }
}
