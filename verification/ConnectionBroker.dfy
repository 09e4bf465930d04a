/**
 The client-side connection broker of `ferridis-protocol/src/broker.rs`: it keeps a PKCE
 verifier under a fresh state token between the authorize step and the token exchange.
 */
module ConnectionBroker {
  import opened Wrappers
  import opened Segments
  import opened Utf8
  import opened Manifests
  import opened OneShot
  import opened Pkce
  import Capability
  import OAuthServer

  /** `endpointPairs` are the pairs that the authorize endpoint's own query already has. */
  datatype OAuthConfig = OAuthConfig(
    endpointPairs: seq<(string, string)>, tokenEndpoint: string, clientId: string, clientSecret: Option<string>, redirectUri: string,
    extraAuthorizeParams: seq<(string, string)>)

  datatype PendingState = PendingState(
    verifier: string, redirectUri: string, tokenEndpoint: string, clientId: string, clientSecret: Option<string>)

  datatype BrokerError = AuthNotOAuth2 | BadManifestId | UnknownState | ExchangeFailed(detail: string)

  type VerifierBytes = r: seq<Byte> | |r| == VERIFIER_BYTES witness seq(32, _ => 0 as Byte)

  function PendingOf(config: OAuthConfig, random: VerifierBytes): PendingState {
    PendingState(GenerateVerifier(random), config.redirectUri, config.tokenEndpoint,
                 config.clientId, config.clientSecret)
  }

  // ---- The authorize query ----------------------------------------------------------

  type Pairs = seq<(string, string)>

  /** The pairs that `AuthorizationUrl::build` appends itself, in order. */
  function OwnPairs(config: OAuthConfig, scopes: seq<string>, stateToken: string, challenge: string): Pairs {
    [("response_type", "code"), ("client_id", config.clientId), ("redirect_uri", config.redirectUri)]
    + (if scopes == [] then [] else [("scope", Join(scopes, ' '))])
    + [("state", stateToken), ("code_challenge", challenge), ("code_challenge_method", "S256")]
  }

  /** The whole query: the endpoint's own pairs stay in front, the extra parameters come last. */
  function QueryPairs(config: OAuthConfig, scopes: seq<string>, stateToken: string, challenge: string): Pairs {
    config.endpointPairs + OwnPairs(config, scopes, stateToken, challenge) + config.extraAuthorizeParams
  }

  /** All values under a name, in order. */
  function Values(pairs: Pairs, name: string): seq<string> {
    if pairs == [] then []
    else (if pairs[0].0 == name then [pairs[0].1] else []) + Values(pairs[1..], name)
  }

  function First(pairs: Pairs, name: string): Option<string> {
    var values := Values(pairs, name);
    if values == [] then None else Some(values[0])
  }

  /** What a server reads that takes the first value of each name it knows. */
  function ReadFirst(pairs: Pairs): Option<OAuthServer.AuthorizeRequest> {
    match (First(pairs, "response_type"), First(pairs, "client_id"), First(pairs, "redirect_uri"),
           First(pairs, "code_challenge"), First(pairs, "code_challenge_method"))
    case (Some(t), Some(c), Some(u), Some(h), Some(m)) => Some(OAuthServer.AuthorizeRequest(t, c, u, h, m))
    case _ => None
  }

  predicate AtMostOnce(pairs: Pairs, name: string) {
    |Values(pairs, name)| <= 1
  }

  /** What this repository's server reads: its query parser refuses a field that comes twice. */
  function ReadQuery(pairs: Pairs): Option<OAuthServer.AuthorizeRequest> {
    if AtMostOnce(pairs, "response_type") && AtMostOnce(pairs, "client_id") && AtMostOnce(pairs, "redirect_uri")
       && AtMostOnce(pairs, "code_challenge") && AtMostOnce(pairs, "code_challenge_method")
       && AtMostOnce(pairs, "state") && AtMostOnce(pairs, "scope")
    then ReadFirst(pairs)
    else None
  }

  function MeantRequest(config: OAuthConfig, challenge: string): OAuthServer.AuthorizeRequest {
    OAuthServer.AuthorizeRequest("code", config.clientId, config.redirectUri, challenge, "S256")
  }

  lemma {:induction false} ValuesConcat(a: Pairs, b: Pairs, name: string)
    ensures Values(a + b, name) == Values(a, name) + Values(b, name)
  {
    if a == [] {
      assert a + b == b;
    } else {
      assert (a + b)[0] == a[0] && (a + b)[1..] == a[1..] + b;
      ValuesConcat(a[1..], b, name);
    }
  }

  lemma ValuesOfThree(p: (string, string), q: (string, string), r: (string, string), name: string)
    ensures Values([p, q, r], name)
         == (if p.0 == name then [p.1] else []) + (if q.0 == name then [q.1] else [])
          + (if r.0 == name then [r.1] else [])
  {
    assert [p, q, r][1..] == [q, r] && [q, r][1..] == [r] && [r][1..] == [];
    assert Values([r], name) == if r.0 == name then [r.1] else [];
    assert Values([q, r], name) == (if q.0 == name then [q.1] else []) + Values([r], name);
  }

  lemma OwnSum(config: OAuthConfig, scopes: seq<string>, stateToken: string, challenge: string, name: string)
    ensures Values(OwnPairs(config, scopes, stateToken, challenge), name) ==
      (if "response_type" == name then ["code"] else []) + (if "client_id" == name then [config.clientId] else [])
      + (if "redirect_uri" == name then [config.redirectUri] else [])
      + (if scopes != [] && "scope" == name then [Join(scopes, ' ')] else [])
      + ((if "state" == name then [stateToken] else []) + (if "code_challenge" == name then [challenge] else [])
         + (if "code_challenge_method" == name then ["S256"] else []))
  {
    var front := [("response_type", "code"), ("client_id", config.clientId), ("redirect_uri", config.redirectUri)];
    var scope := if scopes == [] then [] else [("scope", Join(scopes, ' '))];
    var back := [("state", stateToken), ("code_challenge", challenge), ("code_challenge_method", "S256")];
    ValuesOfThree(front[0], front[1], front[2], name);
    ValuesOfThree(back[0], back[1], back[2], name);
    ValuesConcat(front + scope, back, name);
    ValuesConcat(front, scope, name);
    assert scopes != [] ==> scope[1..] == [];
  }

  /** Each name stands once among the appended pairs, except that scopes may be missing. */
  lemma OwnValues(config: OAuthConfig, scopes: seq<string>, stateToken: string, challenge: string, name: string)
    ensures Values(OwnPairs(config, scopes, stateToken, challenge), name) ==
      match name
      case "response_type" => ["code"]
      case "client_id" => [config.clientId]
      case "redirect_uri" => [config.redirectUri]
      case "scope" => if scopes == [] then [] else [Join(scopes, ' ')]
      case "state" => [stateToken]
      case "code_challenge" => [challenge]
      case "code_challenge_method" => ["S256"]
      case _ => []
  {
    OwnSum(config, scopes, stateToken, challenge, name);
    assert "scope"[1] != "state"[1];
  }

  lemma QueryValues(config: OAuthConfig, scopes: seq<string>, stateToken: string, challenge: string, name: string)
    ensures Values(QueryPairs(config, scopes, stateToken, challenge), name)
         == Values(config.endpointPairs, name) + Values(OwnPairs(config, scopes, stateToken, challenge), name)
          + Values(config.extraAuthorizeParams, name)
  {
    var own := OwnPairs(config, scopes, stateToken, challenge);
    ValuesConcat(config.endpointPairs + own, config.extraAuthorizeParams, name);
    ValuesConcat(config.endpointPairs, own, name);
  }

  /** No other value stands first under this name in the endpoint's own query. */
  predicate Leaves(config: OAuthConfig, name: string, value: string) {
    var first := First(config.endpointPairs, name);
    first.None? || first.value == value
  }

  /** Neither the endpoint's own query nor the extra parameters have this name. */
  predicate Free(config: OAuthConfig, name: string) {
    Values(config.endpointPairs, name) == [] && Values(config.extraAuthorizeParams, name) == []
  }

  lemma FieldIsRead(config: OAuthConfig, scopes: seq<string>, stateToken: string, challenge: string,
                    name: string, value: string)
    requires Values(OwnPairs(config, scopes, stateToken, challenge), name) == [value]
    ensures var pairs := QueryPairs(config, scopes, stateToken, challenge);
      && First(pairs, name).Some? && (First(pairs, name).value == value <==> Leaves(config, name, value))
      && (AtMostOnce(pairs, name) <==> Free(config, name))
      && (Free(config, name) ==> Leaves(config, name, value))
  {
    QueryValues(config, scopes, stateToken, challenge, name);
  }

  lemma OwnFields(config: OAuthConfig, scopes: seq<string>, stateToken: string, challenge: string)
    ensures var own := OwnPairs(config, scopes, stateToken, challenge);
      && Values(own, "response_type") == ["code"] && Values(own, "client_id") == [config.clientId]
      && Values(own, "redirect_uri") == [config.redirectUri] && Values(own, "code_challenge") == [challenge]
      && Values(own, "code_challenge_method") == ["S256"] && Values(own, "state") == [stateToken]
      && |Values(own, "scope")| == if scopes == [] then 0 else 1
  {
    OwnValues(config, scopes, stateToken, challenge, "response_type");
    OwnValues(config, scopes, stateToken, challenge, "client_id");
    OwnValues(config, scopes, stateToken, challenge, "redirect_uri");
    OwnValues(config, scopes, stateToken, challenge, "scope");
    OwnValues(config, scopes, stateToken, challenge, "state");
    OwnValues(config, scopes, stateToken, challenge, "code_challenge");
    OwnValues(config, scopes, stateToken, challenge, "code_challenge_method");
  }

  /** The endpoint's own query gives no other value first to any of the five fields. */
  predicate EndpointLeaves(config: OAuthConfig, challenge: string) {
    && Leaves(config, "response_type", "code")
    && Leaves(config, "client_id", config.clientId)
    && Leaves(config, "redirect_uri", config.redirectUri)
    && Leaves(config, "code_challenge", challenge)
    && Leaves(config, "code_challenge_method", "S256")
  }

  /**
   Whatever the scopes and the extra parameters are, a server that takes first values reads
   what the broker means exactly when the endpoint's own query gives no other value first.
   */
  lemma QueryIsReadIff(config: OAuthConfig, scopes: seq<string>, stateToken: string, challenge: string)
    ensures var read := ReadFirst(QueryPairs(config, scopes, stateToken, challenge));
      read.Some? && (read.value == MeantRequest(config, challenge) <==> EndpointLeaves(config, challenge))
  {
    OwnFields(config, scopes, stateToken, challenge);
    FieldIsRead(config, scopes, stateToken, challenge, "response_type", "code");
    FieldIsRead(config, scopes, stateToken, challenge, "client_id", config.clientId);
    FieldIsRead(config, scopes, stateToken, challenge, "redirect_uri", config.redirectUri);
    FieldIsRead(config, scopes, stateToken, challenge, "code_challenge", challenge);
    FieldIsRead(config, scopes, stateToken, challenge, "code_challenge_method", "S256");
  }

  /** Nothing repeats a field that the server knows; a missing scope may come from elsewhere, once. */
  predicate NothingRepeats(config: OAuthConfig, scopes: seq<string>) {
    && Free(config, "response_type") && Free(config, "client_id") && Free(config, "redirect_uri")
    && Free(config, "code_challenge") && Free(config, "code_challenge_method") && Free(config, "state")
    && |Values(config.endpointPairs, "scope")| + |Values(config.extraAuthorizeParams, "scope")|
       <= (if scopes == [] then 1 else 0)
  }

  /** This repository's server reads the query exactly when nothing repeats a field of it, and then reads what is meant. */
  lemma QueryIsAcceptedIff(config: OAuthConfig, scopes: seq<string>, stateToken: string, challenge: string)
    ensures var read := ReadQuery(QueryPairs(config, scopes, stateToken, challenge));
      && (read.Some? <==> NothingRepeats(config, scopes))
      && (read.Some? ==> read.value == MeantRequest(config, challenge))
  {
    OwnFields(config, scopes, stateToken, challenge);
    QueryIsReadIff(config, scopes, stateToken, challenge);
    FieldIsRead(config, scopes, stateToken, challenge, "response_type", "code");
    FieldIsRead(config, scopes, stateToken, challenge, "client_id", config.clientId);
    FieldIsRead(config, scopes, stateToken, challenge, "redirect_uri", config.redirectUri);
    FieldIsRead(config, scopes, stateToken, challenge, "code_challenge", challenge);
    FieldIsRead(config, scopes, stateToken, challenge, "code_challenge_method", "S256");
    FieldIsRead(config, scopes, stateToken, challenge, "state", stateToken);
    QueryValues(config, scopes, stateToken, challenge, "scope");
  }

  // ---- The capability reference -----------------------------------------------------

  const REGISTRY := "public.ferridis.io"

  /** What a dotted id puts behind the registry: its ends are namespace and version. */
  function Named(parts: seq<string>): string
    requires |parts| >= 3
  {
    parts[0] + ['/'] + Join(parts[1..|parts| - 1], '.') + ['@'] + parts[|parts| - 1]
  }

  function RefOfManifest(id: string): Option<Capability.CapabilityRef> {
    var parts := Split(id, '.');
    if |parts| < 3 then None
    else
      match Capability.Parse(Capability.SCHEME + (REGISTRY + ['/'] + Named(parts)))
      case Ok(r) => Some(r)
      case Err(_) => None
  }

  /** An id stands for what is read behind the registry, cut at its last `@`; ids are not validated. */
  lemma RefOfManifestIff(id: string)
    ensures var parts := Split(id, '.'); var r := RefOfManifest(id);
      && (r.Some? <==> |parts| >= 3 && Capability.Behind(REGISTRY, Named(parts)).Some?)
      && (r.Some? ==> r.value == Capability.Behind(REGISTRY, Named(parts)).value)
  {
    var parts := Split(id, '.');
    if |parts| >= 3 {
      Capability.ParseBehind(REGISTRY, Named(parts));
    }
  }

  /**
   An id of plain segments stands for a reference exactly when it has three, none of them
   empty, and ends in a version: the public registry's, with the ends for namespace and
   version and what is between them for id.
   */
  lemma PlainIdIff(id: string)
    requires '/' !in id && '@' !in id
    ensures var parts := Split(id, '.'); var n, r := |parts|, RefOfManifest(id);
      && (r.Some? <==>
           n >= 3 && parts[0] != "" && Join(parts[1..n - 1], '.') != "" && Capability.IsVersion(parts[n - 1]))
      && (r.Some? ==> r.value == Capability.RawRef(
           "public.ferridis.io", parts[0], Join(parts[1..n - 1], '.'), parts[n - 1]))
  {
    var parts := Split(id, '.');
    var n := |parts|;
    if n >= 3 {
      Capability.JoinEnds(parts, '.');
      JoinSplit(id, '.');
      var cap := Join(parts[1..n - 1], '.');
      assert id == parts[0] + ['.'] + cap + ['.'] + parts[n - 1];
      Capability.EnoughParts(Capability.RawRef(REGISTRY, parts[0], cap, parts[n - 1]));
    }
  }

  // ---- The broker -------------------------------------------------------------------

  /** The form that `exchange_code` posts: what the server reads, and a secret if there is one. */
  datatype TokenPost = TokenPost(request: OAuthServer.TokenRequest, clientSecret: Option<string>)

  datatype TokenResponse = TokenResponse(accessToken: string, refreshToken: Option<string>, expiresIn: Option<nat>)

  datatype Authorized = Authorized(accessToken: string, refreshToken: Option<string>, expiresAt: int)

  datatype Pending = Pending(capability: Capability.CapabilityRef, query: seq<(string, string)>, stateToken: string)

  const DEFAULT_LIFETIME := 3600

  function TokenForm(state: PendingState, code: string): OAuthServer.TokenRequest {
    OAuthServer.TokenRequest("authorization_code", code, state.redirectUri, state.clientId, state.verifier)
  }

  /** The connection that a token response authorizes; times are in seconds. */
  function AuthorizedBy(response: Result<TokenResponse, string>, now: int): Result<Authorized, BrokerError> {
    match response
    case Err(detail) => Err(ExchangeFailed(detail))
    case Ok(t) =>
      Ok(Authorized(t.accessToken, t.refreshToken,
                    now + if t.expiresIn.Some? then t.expiresIn.value else DEFAULT_LIFETIME))
  }

  class Broker {
    const sha: Digest
    const config: OAuthConfig
    var pending: map<string, PendingState>

    constructor (sha: Digest, config: OAuthConfig)
      ensures this.sha == sha && this.config == config && pending == map[]
    {
      this.sha, this.config, pending := sha, config, map[];
    }

    method StartConnect(manifestId: string, auth: AuthMethod, random: VerifierBytes, stateToken: string)
      returns (r: Result<Pending, BrokerError>)
      modifies this`pending
      ensures r == if !auth.Oauth2? then Err(AuthNotOAuth2)
                   else if RefOfManifest(manifestId).None? then Err(BadManifestId)
                   else Ok(Pending(RefOfManifest(manifestId).value,
                                   QueryPairs(config, auth.scopes, stateToken, Challenge(sha, GenerateVerifier(random))),
                                   stateToken))
      ensures pending == After(old(pending), if r.Ok? then Put(stateToken, PendingOf(config, random)) else Skip)
    {
      if !auth.Oauth2? {
        return Err(AuthNotOAuth2);
      }
      var verifier := GenerateVerifier(random);
      var query := QueryPairs(config, auth.scopes, stateToken, Challenge(sha, verifier));
      var capability := RefOfManifest(manifestId);
      if capability.None? {
        return Err(BadManifestId);
      }
      pending := pending[stateToken := PendingState(
        verifier, config.redirectUri, config.tokenEndpoint, config.clientId, config.clientSecret)];
      return Ok(Pending(capability.value, query, stateToken));
    }

    /** The state is gone whatever the token endpoint, which `exchange` stands for, answers. */
    method Complete(stateToken: string, code: string, exchange: (string, TokenPost) -> Result<TokenResponse, string>, now: int)
      returns (r: Result<Authorized, BrokerError>)
      modifies this`pending
      ensures r == if stateToken in old(pending) then
                     var state := old(pending)[stateToken];
                     AuthorizedBy(exchange(state.tokenEndpoint, TokenPost(TokenForm(state, code), state.clientSecret)), now)
                   else Err(UnknownState)
      ensures pending == After(old(pending), Take(stateToken))
    {
      if stateToken !in pending {
        assert pending - {stateToken} == pending;
        return Err(UnknownState);
      }
      var state := pending[stateToken];
      pending := pending - {stateToken};
      var tokens := exchange(state.tokenEndpoint, TokenPost(TokenForm(state, code), state.clientSecret));
      if tokens.Err? {
        return Err(ExchangeFailed(tokens.error));
      }
      var lifetime := if tokens.value.expiresIn.Some? then tokens.value.expiresIn.value else DEFAULT_LIFETIME;
      return Ok(Authorized(tokens.value.accessToken, tokens.value.refreshToken, now + lifetime));
    }
  }

  /**
   A connection from start to finish. The one form that is posted goes to the configured token
   endpoint, with the authorization code, the redirect URI and the client of the configuration,
   the verifier whose challenge was in the query, and the client's secret. What comes back is
   the connection, which lasts an hour if the endpoint does not say how long.
   */
  method ConnectThenComplete(broker: Broker, manifestId: string, auth: AuthMethod, random: VerifierBytes,
                             stateToken: string, code: string,
                             exchange: (string, TokenPost) -> Result<TokenResponse, string>, now: int)
    returns (p: Result<Pending, BrokerError>, r: Result<Authorized, BrokerError>)
    modifies broker
    ensures p.Ok? <==> auth.Oauth2? && RefOfManifest(manifestId).Some?
    ensures p.Err? ==> r == Err(p.error) && broker.pending == old(broker.pending)
    ensures p.Ok? ==> stateToken !in broker.pending
    ensures p.Ok? ==>
      var posted := TokenPost(
        OAuthServer.TokenRequest("authorization_code", code, broker.config.redirectUri, broker.config.clientId,
                                 GenerateVerifier(random)),
        broker.config.clientSecret);
      match exchange(broker.config.tokenEndpoint, posted)
      case Err(detail) => r == Err(ExchangeFailed(detail))
      case Ok(tokens) =>
        && r.Ok? && r.value.accessToken == tokens.accessToken && r.value.refreshToken == tokens.refreshToken
        && r.value.expiresAt == now + (if tokens.expiresIn.Some? then tokens.expiresIn.value else 3600)
  {
    p := broker.StartConnect(manifestId, auth, random, stateToken);
    if p.Err? {
      return p, Err(p.error);
    }
    r := broker.Complete(stateToken, code, exchange, now);
  }

  type Call = OneShot.Event<string, PendingState>

  /**
   Over any history of broker calls, a completion finds its state exactly when the last
   connection started under that token has not been completed, it finds that connection's
   own verifier, and two completions never find the same connection.
   */
  lemma RedeemedAtMostOnce(calls: seq<Call>, j: nat, k: nat)
    requires j < k < |calls| && calls[j].Take? && calls[k].Take?
    requires calls[j].key in Table(calls, j) && calls[k].key in Table(calls, k)
    ensures LastPut(calls, j, calls[j].key).Some? && LastPut(calls, k, calls[k].key).Some?
    ensures LastPut(calls, j, calls[j].key) != LastPut(calls, k, calls[k].key)
    ensures Table(calls, k)[calls[k].key] == calls[LastPut(calls, k, calls[k].key).value].value
    ensures !TakenBetween(calls, LastPut(calls, k, calls[k].key).value, k, calls[k].key)
  {
    LiveIff(calls, j, calls[j].key);
    LiveIff(calls, k, calls[k].key);
    TakesFindDifferentPuts(calls, j, k);
  }

  /** Step `j` exchanges in time the code that step `i` issued, which nobody else tried and nobody issued again. */
  ghost predicate ExchangesInTime(run: seq<OAuthServer.Event>, config: OAuthConfig, random: VerifierBytes, i: nat, j: nat) {
    && i < j < |run| && OAuthServer.Monotone(run) && run[i].op.StartAuthorize? && run[j].op.ExchangeCode?
    && run[j].op.exchange == TokenForm(PendingOf(config, random), run[i].op.randomCode)
    && (forall k :: i < k < j && OAuthServer.Attempts(run[k]) ==> run[k].op.exchange.code != run[i].op.randomCode)
    && (forall k :: i < k < j && run[k].op.StartAuthorize? ==> run[k].op.randomCode != run[i].op.randomCode)
    && run[j].now - run[i].op.issuedAt <= OAuthServer.AUTH_CODE_TTL
  }

  /**
   The whole handshake: in any run of this repository's server in which it read this broker's
   query at `i`, and the broker exchanged the code in time at `j`, the exchange succeeds.
   */
  lemma HandshakeSucceeds(sha: Digest, prefixes: seq<string>, run: seq<OAuthServer.Event>,
                          config: OAuthConfig, random: VerifierBytes, scopes: seq<string>, stateToken: string,
                          i: nat, j: nat)
    requires ExchangesInTime(run, config, random, i, j)
    requires ReadQuery(QueryPairs(config, scopes, stateToken, Challenge(sha, GenerateVerifier(random))))
          == Some(run[i].op.authorize)
    requires OAuthServer.RedirectAllowed(prefixes, config.redirectUri)
    ensures OAuthServer.ReplyAt(OAuthServer.ServerConfig(sha, prefixes), run, j)
         == OAuthServer.Answered(Ok(run[j].op.randomToken))
  {
    QueryIsAcceptedIff(config, scopes, stateToken, Challenge(sha, GenerateVerifier(random)));
    RequestSucceeds(sha, prefixes, run, config, random, i, j);
  }

  /** The same with a server that takes first values, when the endpoint's own query does not mislead it. */
  lemma LenientHandshakeSucceeds(sha: Digest, prefixes: seq<string>, run: seq<OAuthServer.Event>,
                                 config: OAuthConfig, random: VerifierBytes, scopes: seq<string>, stateToken: string,
                                 i: nat, j: nat)
    requires ExchangesInTime(run, config, random, i, j)
    requires EndpointLeaves(config, Challenge(sha, GenerateVerifier(random)))
    requires ReadFirst(QueryPairs(config, scopes, stateToken, Challenge(sha, GenerateVerifier(random))))
          == Some(run[i].op.authorize)
    requires OAuthServer.RedirectAllowed(prefixes, config.redirectUri)
    ensures OAuthServer.ReplyAt(OAuthServer.ServerConfig(sha, prefixes), run, j)
         == OAuthServer.Answered(Ok(run[j].op.randomToken))
  {
    QueryIsReadIff(config, scopes, stateToken, Challenge(sha, GenerateVerifier(random)));
    RequestSucceeds(sha, prefixes, run, config, random, i, j);
  }

  lemma RequestSucceeds(sha: Digest, prefixes: seq<string>, run: seq<OAuthServer.Event>,
                        config: OAuthConfig, random: VerifierBytes, i: nat, j: nat)
    requires ExchangesInTime(run, config, random, i, j)
    requires run[i].op.authorize == MeantRequest(config, Challenge(sha, GenerateVerifier(random)))
    requires OAuthServer.RedirectAllowed(prefixes, config.redirectUri)
    ensures OAuthServer.ReplyAt(OAuthServer.ServerConfig(sha, prefixes), run, j)
         == OAuthServer.Answered(Ok(run[j].op.randomToken))
  {
    var cfg, code := OAuthServer.ServerConfig(sha, prefixes), run[i].op.randomCode;
    HalvesAgree(sha, random, GenerateVerifier(random));
    ChallengeIsNotEmpty(sha, random);
    assert OAuthServer.Grants(cfg, run[i]);
    OAuthServer.OriginIs(cfg, run, i, j, code);
    OAuthServer.ExchangeSucceedsIff(cfg, run, j);
    assert run[i].now <= run[j].now;
  }

  lemma ChallengeIsNotEmpty(sha: Digest, random: VerifierBytes)
    ensures Challenge(sha, GenerateVerifier(random)) != ""
  {
    var digest := sha(Encode(GenerateVerifier(random)));
    assert |digest| == 32;
    Pkce.GeneratedVerifierIsValid(digest);
  }
}
