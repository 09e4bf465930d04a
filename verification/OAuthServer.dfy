/**
 The authorization server of `ferridis-mcp-server/src/oauth_server.rs` (sections 4.1.2 and
 4.1.3 of RFC 6749) as an object and as a clocked state machine over whole runs.

 Random tokens and instants are arguments. An authorization is stamped before the lock is
 taken, so its stamp may be older than the event that stores it.
 */
module OAuthServer {
  import opened Wrappers
  import opened OneShot
  import opened Pkce

  /** Nanoseconds of a clock that never runs backwards. */
  type Instant = int

  const SECOND: int := 1_000_000_000
  const AUTH_CODE_TTL: int := 120 * SECOND
  const ACCESS_TOKEN_TTL: int := 24 * 60 * 60 * SECOND

  datatype AuthCode = AuthCode(clientId: string, redirectUri: string, codeChallenge: string, issuedAt: Instant)
  datatype AccessToken = AccessToken(clientId: string, expiresAt: Instant)
  datatype ClientRecord = ClientRecord(redirectUris: seq<string>, name: Option<string>)

  datatype AuthorizeRequest = AuthorizeRequest(
    responseType: string, clientId: string, redirectUri: string,
    codeChallenge: string, codeChallengeMethod: string)

  datatype TokenRequest = TokenRequest(
    grantType: string, code: string, redirectUri: string, clientId: string, codeVerifier: string)

  datatype OAuthError =
    | UnsupportedResponseType
    | ChallengeMethodNotS256
    | MissingChallenge
    | RedirectNotAllowed
    | UnsupportedGrantType
    | CodeNotFound
    | CodeExpired
    | RedirectMismatch
    | ClientMismatch
    | PkceMismatch

  datatype ServerState = ServerState(
    clients: map<string, ClientRecord>, codes: map<string, AuthCode>, tokens: map<string, AccessToken>)

  const EMPTY := ServerState(map[], map[], map[])

  /**
   `accepts` says which verifiers match a challenge, and `sweep` whether a failed
   validation drops expired tokens. The server is `ServerConfig`.
   */
  datatype Config = Config(accepts: (string, string) -> bool, prefixes: seq<string>, sweep: bool)

  function ServerConfig(sha: Digest, prefixes: seq<string>): Config {
    Config((verifier, challenge) => Accepts(sha, verifier, challenge), prefixes, true)
  }

  datatype Outcome<R> = Outcome(state: ServerState, reply: R)

  // ---- One request ------------------------------------------------------------------

  predicate RedirectAllowed(prefixes: seq<string>, redirectUri: string) {
    exists k :: 0 <= k < |prefixes| && prefixes[k] <= redirectUri
  }

  function Rejection(cfg: Config, req: AuthorizeRequest): Option<OAuthError> {
    if req.responseType != "code" then Some(UnsupportedResponseType)
    else if req.codeChallengeMethod != "S256" then Some(ChallengeMethodNotS256)
    else if req.codeChallenge == "" then Some(MissingChallenge)
    else if !RedirectAllowed(cfg.prefixes, req.redirectUri) then Some(RedirectNotAllowed)
    else None
  }

  function CodeOf(req: AuthorizeRequest, issuedAt: Instant): AuthCode {
    AuthCode(req.clientId, req.redirectUri, req.codeChallenge, issuedAt)
  }

  function Authorize(cfg: Config, s: ServerState, req: AuthorizeRequest, code: string, issuedAt: Instant)
    : Outcome<Result<string, OAuthError>>
  {
    match Rejection(cfg, req)
    case Some(e) => Outcome(s, Err(e))
    case None => Outcome(s.(codes := s.codes[code := CodeOf(req, issuedAt)]), Ok(code))
  }

  /** Saturating, as `Instant::elapsed` is. */
  function Elapsed(now: Instant, since: Instant): int {
    if now < since then 0 else now - since
  }

  function Refusal(cfg: Config, entry: AuthCode, req: TokenRequest, now: Instant): Option<OAuthError> {
    if Elapsed(now, entry.issuedAt) > AUTH_CODE_TTL then Some(CodeExpired)
    else if entry.redirectUri != req.redirectUri then Some(RedirectMismatch)
    else if entry.clientId != req.clientId then Some(ClientMismatch)
    else if !cfg.accepts(req.codeVerifier, entry.codeChallenge) then Some(PkceMismatch)
    else None
  }

  function Exchange(cfg: Config, s: ServerState, req: TokenRequest, token: string, now: Instant)
    : Outcome<Result<string, OAuthError>>
  {
    if req.grantType != "authorization_code" then Outcome(s, Err(UnsupportedGrantType))
    else if req.code !in s.codes then Outcome(s, Err(CodeNotFound))
    else
      var entry := s.codes[req.code];
      var taken := s.(codes := s.codes - {req.code});
      match Refusal(cfg, entry, req, now)
      case Some(e) => Outcome(taken, Err(e))
      case None =>
        Outcome(taken.(tokens := taken.tokens[token := AccessToken(entry.clientId, now + ACCESS_TOKEN_TTL)]), Ok(token))
  }

  predicate Alive(s: ServerState, token: string, now: Instant) {
    token in s.tokens && s.tokens[token].expiresAt > now
  }

  function Swept(tokens: map<string, AccessToken>, now: Instant): map<string, AccessToken> {
    map t | t in tokens && tokens[t].expiresAt > now :: tokens[t]
  }

  function Validate(cfg: Config, s: ServerState, token: string, now: Instant): Outcome<Option<string>> {
    if Alive(s, token, now) then Outcome(s, Some(s.tokens[token].clientId))
    else Outcome(if cfg.sweep then s.(tokens := Swept(s.tokens, now)) else s, None)
  }

  class OAuthServer {
    const sha: Digest
    const allowedRedirectPrefixes: seq<string>
    var clients: map<string, ClientRecord>
    var codes: map<string, AuthCode>
    var tokens: map<string, AccessToken>

    constructor (sha: Digest, prefixes: seq<string>)
      ensures State() == EMPTY && this.sha == sha && allowedRedirectPrefixes == prefixes
    {
      this.sha, allowedRedirectPrefixes := sha, prefixes;
      clients, codes, tokens := map[], map[], map[];
    }

    function State(): ServerState
      reads this
    {
      ServerState(clients, codes, tokens)
    }

    function Cfg(): Config {
      ServerConfig(sha, allowedRedirectPrefixes)
    }

    method RegisterClient(clientId: string, record: ClientRecord)
      modifies this`clients
      ensures State() == old(State()).(clients := old(clients)[clientId := record])
    {
      clients := clients[clientId := record];
    }

    method RedirectUriAllowed(redirectUri: string) returns (allowed: bool)
      ensures allowed <==> RedirectAllowed(allowedRedirectPrefixes, redirectUri)
    {
      for k := 0 to |allowedRedirectPrefixes|
        invariant forall j :: 0 <= j < k ==> !(allowedRedirectPrefixes[j] <= redirectUri)
      {
        if allowedRedirectPrefixes[k] <= redirectUri {
          return true;
        }
      }
      return false;
    }

    method StartAuthorize(req: AuthorizeRequest, randomCode: string, issuedAt: Instant)
      returns (r: Result<string, OAuthError>)
      modifies this`codes
      ensures Outcome(State(), r) == Authorize(Cfg(), old(State()), req, randomCode, issuedAt)
    {
      if req.responseType != "code" {
        return Err(UnsupportedResponseType);
      }
      if req.codeChallengeMethod != "S256" {
        return Err(ChallengeMethodNotS256);
      }
      if req.codeChallenge == "" {
        return Err(MissingChallenge);
      }
      var allowed := RedirectUriAllowed(req.redirectUri);
      if !allowed {
        return Err(RedirectNotAllowed);
      }
      codes := codes[randomCode := AuthCode(req.clientId, req.redirectUri, req.codeChallenge, issuedAt)];
      return Ok(randomCode);
    }

    method ExchangeCode(req: TokenRequest, randomToken: string, now: Instant)
      returns (r: Result<string, OAuthError>)
      modifies this`codes, this`tokens
      ensures Outcome(State(), r) == Exchange(Cfg(), old(State()), req, randomToken, now)
    {
      if req.grantType != "authorization_code" {
        return Err(UnsupportedGrantType);
      }
      if req.code !in codes {
        return Err(CodeNotFound);
      }
      var entry := codes[req.code];
      codes := codes - {req.code};
      if Elapsed(now, entry.issuedAt) > AUTH_CODE_TTL {
        return Err(CodeExpired);
      }
      if entry.redirectUri != req.redirectUri {
        return Err(RedirectMismatch);
      }
      if entry.clientId != req.clientId {
        return Err(ClientMismatch);
      }
      var verified := VerifyPkceS256(sha, req.codeVerifier, entry.codeChallenge);
      if !verified {
        return Err(PkceMismatch);
      }
      tokens := tokens[randomToken := AccessToken(entry.clientId, now + ACCESS_TOKEN_TTL)];
      return Ok(randomToken);
    }

    method ValidateAccessToken(token: string, now: Instant) returns (client: Option<string>)
      modifies this`tokens
      ensures Outcome(State(), client) == Validate(Cfg(), old(State()), token, now)
    {
      if token in tokens && tokens[token].expiresAt > now {
        return Some(tokens[token].clientId);
      }
      tokens := map t | t in tokens && tokens[t].expiresAt > now :: tokens[t];
      return None;
    }
  }

  // ---- Runs -------------------------------------------------------------------------

  datatype Op =
    | Register(clientId: string, record: ClientRecord)
    | StartAuthorize(authorize: AuthorizeRequest, randomCode: string, issuedAt: Instant)
    | ExchangeCode(exchange: TokenRequest, randomToken: string)
    | ValidateToken(token: string)

  datatype Event = Event(op: Op, now: Instant)

  datatype Reply =
    | Registered
    | Answered(result: Result<string, OAuthError>)
    | Validated(client: Option<string>)

  function Apply(cfg: Config, s: ServerState, e: Event): Outcome<Reply> {
    match e.op
    case Register(clientId, record) => Outcome(s.(clients := s.clients[clientId := record]), Registered)
    case StartAuthorize(req, code, issuedAt) =>
      var o := Authorize(cfg, s, req, code, issuedAt);
      Outcome(o.state, Answered(o.reply))
    case ExchangeCode(req, token) =>
      var o := Exchange(cfg, s, req, token, e.now);
      Outcome(o.state, Answered(o.reply))
    case ValidateToken(token) =>
      var o := Validate(cfg, s, token, e.now);
      Outcome(o.state, Validated(o.reply))
  }

  /** The state after the first `n` events of a run. */
  function StateAt(cfg: Config, run: seq<Event>, n: nat): ServerState
    requires n <= |run|
  {
    if n == 0 then EMPTY else Apply(cfg, StateAt(cfg, run, n - 1), run[n - 1]).state
  }

  function ReplyAt(cfg: Config, run: seq<Event>, k: nat): Reply
    requires k < |run|
  {
    Apply(cfg, StateAt(cfg, run, k), run[k]).reply
  }

  ghost predicate Monotone(run: seq<Event>) {
    && (forall i, j :: 0 <= i <= j < |run| ==> run[i].now <= run[j].now)
    && (forall i :: 0 <= i < |run| && run[i].op.StartAuthorize? ==> run[i].op.issuedAt <= run[i].now)
  }

  /** An exchange that got as far as looking for its code. */
  predicate Attempts(e: Event) {
    e.op.ExchangeCode? && e.op.exchange.grantType == "authorization_code"
  }

  predicate Grants(cfg: Config, e: Event) {
    e.op.StartAuthorize? && Rejection(cfg, e.op.authorize).None?
  }

  ghost predicate Issues(cfg: Config, run: seq<Event>, j: nat)
    requires j < |run|
  {
    run[j].op.ExchangeCode? && ReplyAt(cfg, run, j).result.Ok?
  }

  /**
   In every run, an authorization is granted exactly when it asks for a code, with an S256
   challenge that is not empty, for a redirect URI that some allowed prefix starts. Only then
   is anything stored: the request's client, redirect URI and challenge under the code.
   */
  lemma AuthorizeIff(cfg: Config, run: seq<Event>, k: nat)
    requires k < |run| && run[k].op.StartAuthorize?
    ensures var op, reply := run[k].op, ReplyAt(cfg, run, k);
      && (reply.result.Ok? <==>
           && op.authorize.responseType == "code"
           && op.authorize.codeChallengeMethod == "S256"
           && op.authorize.codeChallenge != ""
           && exists p :: p in cfg.prefixes && p <= op.authorize.redirectUri)
      && (reply.result.Ok? ==> reply == Answered(Ok(op.randomCode)))
    ensures var op, s := run[k].op, StateAt(cfg, run, k);
      StateAt(cfg, run, k + 1) ==
        if ReplyAt(cfg, run, k).result.Err? then s
        else s.(codes := s.codes[op.randomCode := AuthCode(
               op.authorize.clientId, op.authorize.redirectUri, op.authorize.codeChallenge, op.issuedAt)])
  {
    AllowedIff(cfg.prefixes, run[k].op.authorize.redirectUri);
  }

  lemma AllowedIff(prefixes: seq<string>, redirectUri: string)
    ensures RedirectAllowed(prefixes, redirectUri) <==> exists p :: p in prefixes && p <= redirectUri
  {
    if RedirectAllowed(prefixes, redirectUri) {
      var k :| 0 <= k < |prefixes| && prefixes[k] <= redirectUri;
      assert prefixes[k] in prefixes;
    }
  }

  /** Every refusal of an authorization: what is wrong decides the error, the earliest check first. */
  lemma AuthorizeRefusals(cfg: Config, run: seq<Event>, k: nat)
    requires k < |run| && run[k].op.StartAuthorize?
    ensures var req, reply := run[k].op.authorize, ReplyAt(cfg, run, k);
      && (reply == Answered(Err(UnsupportedResponseType)) <==> req.responseType != "code")
      && (reply == Answered(Err(ChallengeMethodNotS256)) <==>
           req.responseType == "code" && req.codeChallengeMethod != "S256")
      && (reply == Answered(Err(MissingChallenge)) <==>
           req.responseType == "code" && req.codeChallengeMethod == "S256" && req.codeChallenge == "")
      && (reply == Answered(Err(RedirectNotAllowed)) <==>
           && req.responseType == "code" && req.codeChallengeMethod == "S256" && req.codeChallenge != ""
           && forall p :: p in cfg.prefixes ==> !(p <= req.redirectUri))
  {
    AllowedIff(cfg.prefixes, run[k].op.authorize.redirectUri);
  }

  /** A run as a history of the code table. */
  function CodeEvents(cfg: Config, run: seq<Event>): (events: seq<OneShot.Event<string, AuthCode>>)
    ensures |events| == |run|
    ensures forall k :: 0 <= k < |run| ==> events[k] == CodeEvent(cfg, run[k])
  {
    seq(|run|, k requires 0 <= k < |run| => CodeEvent(cfg, run[k]))
  }

  function CodeEvent(cfg: Config, e: Event): OneShot.Event<string, AuthCode> {
    if Grants(cfg, e) then Put(e.op.randomCode, CodeOf(e.op.authorize, e.op.issuedAt))
    else if Attempts(e) then Take(e.op.exchange.code)
    else Skip
  }

  lemma StepOfCodes(cfg: Config, s: ServerState, e: Event)
    ensures Apply(cfg, s, e).state.codes == After(s.codes, CodeEvent(cfg, e))
  {
    if Attempts(e) && e.op.exchange.code !in s.codes {
      assert s.codes - {e.op.exchange.code} == s.codes;
    }
  }

  lemma {:induction false} CodesAreOneShot(cfg: Config, run: seq<Event>, n: nat)
    requires n <= |run|
    ensures StateAt(cfg, run, n).codes == Table(CodeEvents(cfg, run), n)
  {
    if n > 0 {
      CodesAreOneShot(cfg, run, n - 1);
      StepOfCodes(cfg, StateAt(cfg, run, n - 1), run[n - 1]);
    }
  }

  /** The authorization whose code an exchange at `k` would redeem. */
  function Origin(cfg: Config, run: seq<Event>, k: nat, code: string): Option<nat>
    requires k <= |run|
  {
    LastPut(CodeEvents(cfg, run), k, code)
  }

  lemma OriginIs(cfg: Config, run: seq<Event>, i: nat, j: nat, code: string)
    requires i < j <= |run| && Grants(cfg, run[i]) && run[i].op.randomCode == code
    requires forall k :: i < k < j && run[k].op.StartAuthorize? ==> run[k].op.randomCode != code
    ensures Origin(cfg, run, j, code) == Some(i)
  {
    var events := CodeEvents(cfg, run);
    assert events[i] == CodeEvent(cfg, run[i]);
    forall k | i < k < j && events[k].Put?
      ensures events[k].key != code
    {
      assert events[k] == CodeEvent(cfg, run[k]);
    }
  }

  ghost predicate TriedBetween(run: seq<Event>, i: nat, j: nat, code: string)
    requires i < j <= |run|
  {
    exists k :: i < k < j && Attempts(run[k]) && run[k].op.exchange.code == code
  }

  /** A code is there exactly when nothing has tried it since it was last issued, with what was authorized then. */
  lemma CodeIsThereIff(cfg: Config, run: seq<Event>, j: nat, code: string)
    requires j <= |run|
    ensures var codes, origin := StateAt(cfg, run, j).codes, Origin(cfg, run, j, code);
      && (code in codes <==> origin.Some? && !TriedBetween(run, origin.value, j, code))
      && (origin.Some? ==> Grants(cfg, run[origin.value]) && run[origin.value].op.randomCode == code)
      && (code in codes ==>
           var op := run[origin.value].op;
           codes[code] == AuthCode(op.authorize.clientId, op.authorize.redirectUri, op.authorize.codeChallenge, op.issuedAt))
  {
    var events := CodeEvents(cfg, run);
    CodesAreOneShot(cfg, run, j);
    LiveIff(events, j, code);
    var origin := Origin(cfg, run, j, code);
    if origin.Some? {
      var i := origin.value;
      assert events[i] == CodeEvent(cfg, run[i]);
      assert TakenBetween(events, i, j, code) <==> TriedBetween(run, i, j, code) by {
        if k :| i < k < j && Attempts(run[k]) && run[k].op.exchange.code == code {
          assert events[k] == Take(code);
        }
      }
    }
  }

  /** The condition under which an exchange at `j` redeems the authorization at `i`. */
  ghost predicate Redeems(cfg: Config, run: seq<Event>, i: nat, j: nat)
    requires i < j < |run| && Attempts(run[j]) && Grants(cfg, run[i])
  {
    var grant, req := run[i].op, run[j].op.exchange;
    && !TriedBetween(run, i, j, req.code)
    && run[j].now - grant.issuedAt <= 120 * SECOND
    && grant.authorize.redirectUri == req.redirectUri
    && grant.authorize.clientId == req.clientId
    && cfg.accepts(req.codeVerifier, grant.authorize.codeChallenge)
  }

  /**
   In every run, an exchange succeeds exactly when the last authorization that issued its
   code has not been tried since, is at most 120 s old, and has the same redirect URI,
   the same client and a challenge that the verifier matches.
   */
  lemma ExchangeSucceedsIff(cfg: Config, run: seq<Event>, j: nat)
    requires j < |run| && Attempts(run[j])
    ensures var reply, origin := ReplyAt(cfg, run, j), Origin(cfg, run, j, run[j].op.exchange.code);
      && (reply.result.Ok? <==> origin.Some? && Redeems(cfg, run, origin.value, j))
      && (reply.result.Ok? ==> reply == Answered(Ok(run[j].op.randomToken)))
  {
    CodeIsThereIff(cfg, run, j, run[j].op.exchange.code);
  }

  /** Every refusal of an exchange, in every run: what is wrong decides the error, the earliest check first. */
  lemma ExchangeRefusals(cfg: Config, run: seq<Event>, j: nat)
    requires j < |run| && run[j].op.ExchangeCode?
    ensures var reply, req := ReplyAt(cfg, run, j), run[j].op.exchange;
      var origin := Origin(cfg, run, j, req.code);
      && (reply == Answered(Err(UnsupportedGrantType)) <==> req.grantType != "authorization_code")
      && (Attempts(run[j]) ==>
           (reply == Answered(Err(CodeNotFound)) <==> origin.None? || TriedBetween(run, origin.value, j, req.code)))
      && (Attempts(run[j]) && origin.Some? && !TriedBetween(run, origin.value, j, req.code) ==>
           var late := run[j].now - run[origin.value].op.issuedAt > 120 * SECOND;
           var grant := run[origin.value].op.authorize;
           && (reply == Answered(Err(CodeExpired)) <==> late)
           && (reply == Answered(Err(RedirectMismatch)) <==> !late && grant.redirectUri != req.redirectUri)
           && (reply == Answered(Err(ClientMismatch)) <==>
                !late && grant.redirectUri == req.redirectUri && grant.clientId != req.clientId)
           && (reply == Answered(Err(PkceMismatch)) <==>
                !late && grant.redirectUri == req.redirectUri && grant.clientId == req.clientId
                && !cfg.accepts(req.codeVerifier, grant.codeChallenge)))
  {
    CodeIsThereIff(cfg, run, j, run[j].op.exchange.code);
  }

  /** Successful exchanges come from different authorizations, so no authorization pays twice. */
  lemma ExchangesAreInjective(cfg: Config, run: seq<Event>, j: nat, k: nat)
    requires j < k < |run| && Issues(cfg, run, j) && Issues(cfg, run, k)
    ensures Origin(cfg, run, j, run[j].op.exchange.code) != Origin(cfg, run, k, run[k].op.exchange.code)
  {
    CodesAreOneShot(cfg, run, j);
    CodesAreOneShot(cfg, run, k);
    TakesFindDifferentPuts(CodeEvents(cfg, run), j, k);
  }

  /** In a run with a monotone clock a redeemed authorization is at most 120 s old. */
  lemma RedeemedIsFresh(cfg: Config, run: seq<Event>, j: nat)
    requires j < |run| && Issues(cfg, run, j) && Monotone(run)
    ensures var i := Origin(cfg, run, j, run[j].op.exchange.code);
      && i.Some? && i.value < j && Grants(cfg, run[i.value])
      && 0 <= run[j].now - run[i.value].op.issuedAt <= 120 * SECOND
  {
    ExchangeSucceedsIff(cfg, run, j);
    var i := Origin(cfg, run, j, run[j].op.exchange.code).value;
    assert run[i].now <= run[j].now;
  }

  /** An attempt consumes its code whether or not it succeeds: until it is issued again, no exchange of it does. */
  lemma AttemptConsumes(cfg: Config, run: seq<Event>, j: nat, k: nat)
    requires j < k < |run| && Attempts(run[j]) && Attempts(run[k])
    requires run[j].op.exchange.code == run[k].op.exchange.code
    requires forall i :: j < i < k && Grants(cfg, run[i]) ==> run[i].op.randomCode != run[j].op.exchange.code
    ensures ReplyAt(cfg, run, k) == Answered(Err(CodeNotFound))
  {
    var events, code := CodeEvents(cfg, run), run[j].op.exchange.code;
    CodesAreOneShot(cfg, run, k);
    LiveIff(events, k, code);
    var origin := LastPut(events, k, code);
    if origin.Some? {
      assert events[origin.value] == CodeEvent(cfg, run[origin.value]);
      assert events[j] == Take(code);
      assert origin.value < j;
      assert TakenBetween(events, origin.value, k, code);
    }
  }

  ghost predicate SameButClients(s: ServerState, t: ServerState) {
    s.codes == t.codes && s.tokens == t.tokens
  }

  lemma StepIgnoresClients(cfg: Config, s: ServerState, t: ServerState, e: Event)
    requires SameButClients(s, t)
    ensures SameButClients(Apply(cfg, s, e).state, Apply(cfg, t, e).state)
    ensures Apply(cfg, s, e).reply == Apply(cfg, t, e).reply
  {
  }

  /** The client table is written but never consulted: no reply depends on it. */
  lemma {:induction false} RegistrationIsUnobserved(cfg: Config, run: seq<Event>, other: seq<Event>, n: nat)
    requires n <= |run| == |other|
    requires forall k :: 0 <= k < |run| ==> run[k] == other[k] || (run[k].op.Register? && other[k].op.Register?)
    ensures SameButClients(StateAt(cfg, run, n), StateAt(cfg, other, n))
    ensures n < |run| ==> ReplyAt(cfg, run, n) == ReplyAt(cfg, other, n)
  {
    if n > 0 {
      RegistrationIsUnobserved(cfg, run, other, n - 1);
      StepIgnoresClients(cfg, StateAt(cfg, run, n - 1), StateAt(cfg, other, n - 1), run[n - 1]);
    }
    if n < |run| {
      StepIgnoresClients(cfg, StateAt(cfg, run, n), StateAt(cfg, other, n), run[n]);
    }
  }

  /** The record last registered under a client id. */
  function LastRecord(run: seq<Event>, n: nat, clientId: string): Option<ClientRecord>
    requires n <= |run|
  {
    if n == 0 then None
    else if run[n - 1].op.Register? && run[n - 1].op.clientId == clientId then Some(run[n - 1].op.record)
    else LastRecord(run, n - 1, clientId)
  }

  /** Registrations are kept for ever, the last one under each id. */
  lemma {:induction false} ClientTable(cfg: Config, run: seq<Event>, n: nat, clientId: string)
    requires n <= |run|
    ensures var clients, record := StateAt(cfg, run, n).clients, LastRecord(run, n, clientId);
      if record.Some? then clientId in clients && clients[clientId] == record.value else clientId !in clients
  {
    if n > 0 {
      ClientTable(cfg, run, n - 1, clientId);
    }
  }

  // ---- Access tokens ----------------------------------------------------------------

  /** The last exchange among the first `n` events that issued `token`. */
  ghost function LastIssue(cfg: Config, run: seq<Event>, n: nat, token: string): (r: Option<nat>)
    requires n <= |run|
    ensures r.Some? ==> r.value < n && Issues(cfg, run, r.value) && run[r.value].op.randomToken == token
  {
    if n == 0 then None
    else if Issues(cfg, run, n - 1) && run[n - 1].op.randomToken == token then Some(n - 1)
    else LastIssue(cfg, run, n - 1, token)
  }

  predicate IssuesFrom(cfg: Config, s: ServerState, e: Event) {
    e.op.ExchangeCode? && Exchange(cfg, s, e.op.exchange, e.op.randomToken, e.now).reply.Ok?
  }

  function TokensAfter(cfg: Config, s: ServerState, e: Event): map<string, AccessToken> {
    if IssuesFrom(cfg, s, e) then
      s.tokens[e.op.randomToken := AccessToken(e.op.exchange.clientId, e.now + ACCESS_TOKEN_TTL)]
    else if e.op.ValidateToken? && !Alive(s, e.op.token, e.now) && cfg.sweep then Swept(s.tokens, e.now)
    else s.tokens
  }

  lemma StepOfTokens(cfg: Config, s: ServerState, e: Event)
    ensures Apply(cfg, s, e).state.tokens == TokensAfter(cfg, s, e)
  {
  }

  /** What a token table says of a token whose last issue is known. */
  ghost predicate Records(tokens: map<string, AccessToken>, token: string, issue: Option<Event>, now: Instant) {
    && (issue.Some? ==> issue.value.op.ExchangeCode?)
    && (token in tokens ==> issue.Some?)
    && (token in tokens ==>
         tokens[token] == AccessToken(issue.value.op.exchange.clientId, issue.value.now + ACCESS_TOKEN_TTL))
    && (issue.Some? && token !in tokens ==> issue.value.now + ACCESS_TOKEN_TTL <= now)
  }

  lemma StepKeepsRecords(cfg: Config, s: ServerState, e: Event, token: string, issue: Option<Event>, now: Instant)
    requires Records(s.tokens, token, issue, now) && now <= e.now
    ensures Records(TokensAfter(cfg, s, e), token,
                    if IssuesFrom(cfg, s, e) && e.op.randomToken == token then Some(e) else issue, e.now)
  {
  }

  ghost function IssueEvent(cfg: Config, run: seq<Event>, n: nat, token: string): Option<Event>
    requires n <= |run|
  {
    match LastIssue(cfg, run, n, token)
    case None => None
    case Some(i) => Some(run[i])
  }

  /** The table holds the last issue of a token, unless it has been swept after it expired. */
  lemma {:induction false} TokenTable(cfg: Config, run: seq<Event>, n: nat, token: string, now: Instant)
    requires n <= |run| && Monotone(run)
    requires n > 0 ==> run[n - 1].now <= now
    ensures Records(StateAt(cfg, run, n).tokens, token, IssueEvent(cfg, run, n, token), now)
  {
    if n > 0 {
      var s, e := StateAt(cfg, run, n - 1), run[n - 1];
      TokenTable(cfg, run, n - 1, token, e.now);
      StepOfTokens(cfg, s, e);
      StepKeepsRecords(cfg, s, e, token, IssueEvent(cfg, run, n - 1, token), e.now);
    }
  }

  /**
   In every run a validation answers client `c` exactly when the token was last issued to
   `c` and less than 24 h have passed.
   */
  lemma ValidateIff(cfg: Config, run: seq<Event>, k: nat)
    requires k < |run| && run[k].op.ValidateToken? && Monotone(run)
    ensures var issue := LastIssue(cfg, run, k, run[k].op.token);
      ReplyAt(cfg, run, k) == Validated(
        if issue.Some? && run[k].now < run[issue.value].now + 24 * 60 * 60 * SECOND
        then Some(run[issue.value].op.exchange.clientId) else None)
  {
    TokenTable(cfg, run, k, run[k].op.token, run[k].now);
  }

  /** A validation that fails leaves exactly the tokens that have not expired; one that succeeds leaves all. */
  lemma SweepKeepsTheLive(cfg: Config, run: seq<Event>, k: nat)
    requires k < |run| && run[k].op.ValidateToken? && cfg.sweep
    ensures var before, after := StateAt(cfg, run, k).tokens, StateAt(cfg, run, k + 1).tokens;
      if ReplyAt(cfg, run, k) != Validated(None) then after == before
      else forall t :: (t in after <==> t in before && before[t].expiresAt > run[k].now)
                       && (t in after ==> after[t] == before[t])
  {
  }

  lemma CodesIgnoreSweeping(cfg: Config, other: Config, run: seq<Event>, n: nat)
    requires n <= |run| && cfg.accepts == other.accepts && cfg.prefixes == other.prefixes
    ensures StateAt(cfg, run, n).codes == StateAt(other, run, n).codes
  {
    CodesAreOneShot(cfg, run, n);
    CodesAreOneShot(other, run, n);
    assert CodeEvents(cfg, run) == CodeEvents(other, run);
  }

  /** An exchange answers from the code table alone. */
  lemma ExchangeIgnoresTokens(cfg: Config, other: Config, s: ServerState, t: ServerState, e: Event)
    requires cfg.accepts == other.accepts && cfg.prefixes == other.prefixes && s.codes == t.codes
    requires !e.op.ValidateToken?
    ensures Apply(cfg, s, e).reply == Apply(other, t, e).reply
  {
  }

  lemma IssuesAgree(cfg: Config, other: Config, run: seq<Event>, k: nat)
    requires k < |run| && cfg.accepts == other.accepts && cfg.prefixes == other.prefixes
    ensures Issues(cfg, run, k) == Issues(other, run, k)
  {
    if run[k].op.ExchangeCode? {
      CodesIgnoreSweeping(cfg, other, run, k);
      ExchangeIgnoresTokens(cfg, other, StateAt(cfg, run, k), StateAt(other, run, k), run[k]);
    }
  }

  lemma {:induction false} IssuesIgnoreSweeping(cfg: Config, other: Config, run: seq<Event>, n: nat, token: string)
    requires n <= |run| && cfg.accepts == other.accepts && cfg.prefixes == other.prefixes
    ensures LastIssue(cfg, run, n, token) == LastIssue(other, run, n, token)
  {
    if n > 0 {
      IssuesIgnoreSweeping(cfg, other, run, n - 1, token);
      IssuesAgree(cfg, other, run, n - 1);
    }
  }

  /** Sweeping expired tokens on failed lookups changes no answer of any run. */
  lemma EvictionIsUnobservable(cfg: Config, run: seq<Event>, k: nat)
    requires k < |run| && Monotone(run)
    ensures ReplyAt(cfg.(sweep := true), run, k) == ReplyAt(cfg.(sweep := false), run, k)
  {
    var lazy, keeping := cfg.(sweep := true), cfg.(sweep := false);
    if run[k].op.ValidateToken? {
      ValidateIff(lazy, run, k);
      ValidateIff(keeping, run, k);
      IssuesIgnoreSweeping(lazy, keeping, run, k, run[k].op.token);
    } else {
      CodesIgnoreSweeping(lazy, keeping, run, k);
      ExchangeIgnoresTokens(lazy, keeping, StateAt(lazy, run, k), StateAt(keeping, run, k), run[k]);
    }
  }
}
