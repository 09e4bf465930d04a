# Ferridis: a verified model

Ferridis lets a client find, authorise and call capabilities that adapters serve over HTTP. This
project models the parts of it that hold state or define a format, and proves what the rest of the
system relies on. Verify it with `dafny verify dfyconfig.toml`.

* **Streamed intents.** An adapter's flow becomes server-sent events, the events become bytes, the
  bytes arrive in arbitrary chunks, an incremental parser reads them and the client loop turns them
  into results (`StreamIntent`, `SseWriter`, `Sse`, `StreamClient`, `Pipeline`). The end-to-end
  theorem is `Pipeline.EndToEnd`; `Pipeline.Stream` is the same through the objects. The parser is
  proved against `ParseLines`, an account of a whole input that has no buffer and no half-built
  block.
* **PEM and base64** (`Pem`, `Base64`), after RFC 4648 section 4 and RFC 7468 section 2.
* **OAuth.** The authorization server is an object and, over whole runs, a clocked state machine
  (`OAuthServer`); the client's half is `ConnectionBroker`; both use `Pkce`. Codes and pending
  connections share one theory of tables whose entries are taken at most once (`OneShot`).
* **Mirrors and caches**: the wallet against a store whose reads and writes fail (`Wallet`), the
  discovery registry against its state file under interleaving (`DiscoveryStore`) and against the
  heartbeat of an adapter (`Heartbeat`), the mesh cache and the federation (`Mesh`).
* **Names and documents**: capability references (`Capability`), MCP tool names and intent verbs
  (`Slugs`, `IntentVerbs`, `ToolCatalogues`, `McpProjection`), manifests (`Manifests`,
  `ManifestServing`), paths under a root (`PathResolve`).
* **Shared**: `Segments` (splitting at a separator), `Utf8`, `Json`, `FaithfulCodec` (the assumption
  on codecs can be met), `Urls`, `Wrappers`.

Objects whose methods change their fields are classes, and every such method states its whole new
state through a function of the old one. What the repository promises is then proved about that
function and about all runs of it.

## Where the code and its comments disagree

The model follows the code.

* `rust/crates/ferridis-client/src/wallet.rs:147-149` says a failed insert leaves memory alone.
  `Wallet.FailedInsertKeepsMemoryIff` gives the exact condition, and
  `Wallet.FailedInsertChangesMemory` a failure that changes it.
* `rust/crates/ferridis-adapter-sdk/src/server.rs:229-233` and `314-316` say the final `end` event
  lets a client tell a finished stream from a dropped one. The client loop breaks silently on both
  (`StreamClient.EndIsSilent`); `Pipeline.CutUnnoticedIff` says which cuts of a body go unnoticed.
  Only a transport error is visible.
* The same file sends `error` and then `end` when the dispatch call itself fails, so such a trace
  has two terminal events: `StreamIntent.OneTerminalIff`.
* `rust/crates/ferridis-mcp-server/src/oauth_server.rs:132-133` says the registered client is
  checked on every authorization. The table is never consulted:
  `OAuthServer.RegistrationIsUnobserved`.
* `rust/crates/ferridis-protocol/src/mesh.rs:51-52` says cache hits are not verified again; the
  code verifies them: `Mesh.HitIsVerifiedAndRecent`.
* `rust/crates/ferridis-discovery-broker/src/store.rs` saves through one temporary file and copies
  the registry outside the write, so overlapping registrations can lose one of them.
  `DiscoveryStore.FileRestoresItsCopy` and `DiscoveryStore.RegistrationSurvivesIff` say exactly
  which survive, `DiscoveryStore.LateWriterErases` and `DiscoveryStore.OverlapLosesARegistration`
  how one is lost, `DiscoveryStore.SerialRestartsRestore` that calls without overlap lose none.
  Line 226 there says that a deletion survives restarts; a late writer can bring the service back:
  `DiscoveryStore.RemovalSurvivesIff`.
  `load_state` counts skipped entries.
* `rust/crates/ferridis-adapter-sdk/src/broker.rs:267-268` says the handle registers again before
  the time-to-live expires. A failed or slow registration can miss it: `Heartbeat.StaysListedIff`
  is the exact condition, and by `Heartbeat.PromptIff` one failure is too many at the default
  interval.
* The round trip of the PEM printer and parser fails for the empty byte string and no other:
  `Pem.RoundTripIff`.
* Different intents can be published under one MCP tool name. `ToolCatalogues.NamesClashIff` says
  when, and `ToolCatalogues.ReachableIff` when an intent stays reachable all the same.

## Model

| member | source | states |
|---|---|---|
| Pipeline.EndToEnd | rust/crates/ferridis-adapter-sdk/src/server.rs:234-320 | for every flow, every chunking of the body and every placement of keep-alives, the caller gets the payloads before the first halt or error, in order, and then why the flow stopped; the text of an error, read as JSON, is an object with exactly the adapter's status and message |
| Pipeline.Stream | rust/crates/ferridis-client/src/client.rs:437-504 | the same, computed by the parser object and the client loop |
| Pipeline.TruncationSafety | rust/crates/ferridis-protocol/src/events.rs:317-325 | a body cut after any byte gives a prefix of the outcome; no partial event surfaces |
| Pipeline.DroppedConnectionSafety | rust/crates/ferridis-protocol/src/events.rs:306-334 | when the cut is a transport failure, whatever follows it, the payloads are a prefix and at most the failure is added |
| Pipeline.CutUnnoticedIff | rust/crates/ferridis-client/src/client.rs:437-504 | a body cut after any byte gives the whole outcome iff the last event that adds something to it is whole in the cut |
| Pipeline.BodyRoundTrip | rust/crates/ferridis-adapter-sdk/src/server.rs:275-322 | the parser reads from the body exactly the producer's events |
| Pipeline.EmittedAreRead | rust/crates/ferridis-client/src/client.rs:440-490 | what the client makes of the producer's events is the delivered payloads and the ending |
| Pipeline.PayloadsOf | rust/crates/ferridis-client/src/client.rs:440-440 | the payloads that the caller sees are the data of the delivered chunks |
| StreamIntent.DispatchStreamIntent | rust/crates/ferridis-adapter-sdk/src/server.rs:234-318 | the loop sends exactly the events of the specification |
| StreamIntent.ErrorEventTells | rust/crates/ferridis-adapter-sdk/src/server.rs:246-253 | an error event is read as an object with exactly the error's status and message |
| StreamIntent.SignalEventTells | rust/crates/ferridis-adapter-sdk/src/server.rs:280-286 | a signal event is read as an object with exactly the signal's wire name |
| StreamIntent.ReplayRecovers | rust/crates/ferridis-adapter-sdk/src/server.rs:275-300 | replaying the events from the implicit continue recovers the signal of every delivered chunk |
| Backpressure.FromJsonIff | rust/crates/ferridis-protocol/src/backpressure.rs:13-24 | a signal is read from its wire name or its tagged form, and from nothing else |
| StreamIntent.SignalsAreChanges | rust/crates/ferridis-adapter-sdk/src/server.rs:277-292 | the signal events are exactly the changes, and consecutive signals differ |
| StreamIntent.EmitEndsOnce | rust/crates/ferridis-adapter-sdk/src/server.rs:293-318 | a flow's trace has one terminal event among end, error and halt, and it is the last |
| StreamIntent.OneTerminalIff | rust/crates/ferridis-adapter-sdk/src/server.rs:244-265 | a finished trace has exactly one terminal event iff the dispatch call itself succeeded |
| StreamClient.DispatchStreaming | rust/crates/ferridis-client/src/client.rs:437-504 | polling the parser to its end yields the mapping of everything it still owes |
| StreamClient.MappedIsChunks | rust/crates/ferridis-client/src/client.rs:437-504 | until an item that ends the stream, the caller sees the data of the chunk events, in order, and nothing else |
| StreamClient.LastWordIs | rust/crates/ferridis-client/src/client.rs:441-502 | what the caller learns from an end, an error, a halt or a failure, whatever follows it |
| StreamClient.OthersAreIgnored | rust/crates/ferridis-client/src/client.rs:489-492 | an event of any other name changes nothing, wherever it comes |
| StreamClient.HaltsIff | rust/crates/ferridis-client/src/client.rs:457-467 | only the word halt, as a string or as a tagged variant, halts the stream |
| StreamClient.MappedPrefix | rust/crates/ferridis-client/src/client.rs:437-504 | a prefix of the events gives a prefix of the results |
| StreamClient.MappedFailure | rust/crates/ferridis-client/src/client.rs:497-500 | a transport failure adds at most itself |
| StreamClient.EndIsSilent | rust/crates/ferridis-client/src/client.rs:441-443 | a final end event cannot be told from a closed stream |
| Sse.SseStream.DrainOne | rust/crates/ferridis-protocol/src/events.rs:339-379 | emits the next owed item or consumes every complete line and finds none; the buffer shrinks; the rest is owed unchanged |
| Sse.SseStream.PollNext | rust/crates/ferridis-protocol/src/events.rs:294-334 | one poll returns the next owed item, or loses nothing, or nothing is owed |
| Sse.GroupAccumulates | rust/crates/ferridis-protocol/src/events.rs:274-292 | lines without a blank report only undecodable ones and overlay the block: data appended, last name and id kept |
| Sse.ItemsAreParseLines | rust/crates/ferridis-protocol/src/events.rs:253-292 | the line-by-line parser computes the whole-input meaning |
| Sse.FieldForms | rust/crates/ferridis-protocol/src/events.rs:274-292 | a field line without a colon has the empty value, and at most one space after the colon is taken away |
| Sse.CrsAreStripped | rust/crates/ferridis-protocol/src/events.rs:339-379 | one carriage return before each line feed makes no difference |
| Sse.ReceivedIs | rust/crates/ferridis-protocol/src/events.rs:306-334 | what arrives is what the chunks hold, in order |
| Sse.RemainingIsWhole | rust/crates/ferridis-protocol/src/events.rs:306-379 | from any parser state, chunks yield what their concatenation means |
| Sse.ChunkingIndependence | rust/crates/ferridis-protocol/src/events.rs:306-379 | any split of the bytes, mid-line, mid-CRLF or mid-character, gives the items of the whole input |
| Sse.FailureIsInPlace | rust/crates/ferridis-protocol/src/events.rs:326-329 | a transport error comes after everything the earlier bytes complete |
| Sse.TruncationIsPrefix | rust/crates/ferridis-protocol/src/events.rs:317-325 | cutting the input never changes what was complete before the cut |
| SseWriter.PartParses | rust/crates/ferridis-adapter-sdk/src/server.rs:284-322 | an event as the HTML standard writes it is read back as that event, its data lines joined again; a comment block leaves no trace |
| SseWriter.CutItems | rust/crates/ferridis-protocol/src/events.rs:317-379 | from a body cut anywhere the parser reads exactly the events that are whole in it |
| SseWriter.WireRoundTrip | rust/crates/ferridis-adapter-sdk/src/server.rs:275-322 | the parser reads back exactly what any sequence of events and keep-alives wrote |
| FaithfulCodec.AFaithfulCodecExists | rust/crates/ferridis-protocol/src/events.rs:259-266 | some codec prints every value on one line and parses it back, so the assumption of the streaming theorems can be met |
| Utf8.DecodeEncode | rust/crates/ferridis-protocol/src/events.rs:364-376 | every text is decoded from its bytes |
| Utf8.EncodeDecode | rust/crates/ferridis-protocol/src/events.rs:364-376 | only the bytes of a text are accepted |
| Pem.DecodePem | rust/crates/ferridis-protocol/src/signing.rs:880-902 | the loop over lines and the base64 decoding give the specified result, for either label |
| Pem.SpkiDerToPublicKeyPem | rust/crates/ferridis-protocol/src/signing.rs:912-922 | the printed block is the marker lines around the wrapped base64 text |
| Pem.PublicKeyPemIs | rust/crates/ferridis-protocol/src/signing.rs:912-922 | the text in full, with its two marker lines |
| Pem.ChunksLayout | rust/crates/ferridis-protocol/src/signing.rs:916-919 | the body lines are the text, each non-empty, all but the last of 64 characters |
| Pem.TrimPadded | rust/crates/ferridis-protocol/src/signing.rs:884-884 | whitespace around a line is gone after trimming |
| Pem.DecodeTolerates | rust/crates/ferridis-protocol/src/signing.rs:880-902 | a padded block is read back exactly, after text without a marker line and before any text |
| Pem.BlockText | rust/crates/ferridis-protocol/src/signing.rs:880-896 | from any lines, exactly those between the first begin marker and the end marker after it are gathered, trimmed; none without a begin marker or after an earlier end marker |
| Pem.DecodedIff | rust/crates/ferridis-protocol/src/signing.rs:897-902 | no block is reported iff nothing is gathered, bytes are returned iff the text is their base64, and any other text is refused as base64 |
| Pem.LinesAre | rust/crates/ferridis-protocol/src/signing.rs:883-884 | a last line counts whether or not a line feed ends it |
| Pem.RoundTripIff | rust/crates/ferridis-protocol/src/signing.rs:880-922 | decoding what is printed returns the bytes iff they are not empty; the empty string is reported as no block |
| Pem.PublicKeyRoundTrip | rust/crates/ferridis-protocol/src/signing.rs:880-922 | the same through the two loops |
| Base64.DecodeEncode | rust/crates/ferridis-protocol/src/signing.rs:899-913 | padded base64 decodes to the bytes it encodes |
| Base64.EncodeDecode | rust/crates/ferridis-protocol/src/signing.rs:899-901 | the decoder accepts only what the encoder writes |
| Base64.TextOfGroup | rust/crates/ferridis-protocol/src/signing.rs:913-913 | the four digits of three bytes, in front of the text of the rest |
| Base64.TextOfEnd | rust/crates/ferridis-protocol/src/signing.rs:913-913 | the digits and the padding of one or two last bytes |
| Base64.DigitIs | rust/crates/ferridis-protocol/src/oauth.rs:57-76 | the order of the two alphabets |
| Base64.UnpaddedLength | rust/crates/ferridis-protocol/src/oauth.rs:57-76 | unpadded text has as many characters as the bits need |
| Base64.EncodeInjective | rust/crates/ferridis-protocol/src/oauth.rs:70-76 | different digests give different challenges |
| Pkce.ConstantTimeEquals | rust/crates/ferridis-mcp-server/src/oauth_server.rs:458-469 | the accumulating comparison is byte equality |
| Pkce.VerifyPkceS256 | rust/crates/ferridis-mcp-server/src/oauth_server.rs:453-470 | a verifier is accepted iff it has 43 to 128 bytes and its S256 is the challenge |
| Pkce.GeneratedVerifierIsValid | rust/crates/ferridis-protocol/src/oauth.rs:44-68 | a generated verifier has 43 unreserved characters |
| Pkce.HalvesAgree | rust/crates/ferridis-protocol/src/oauth.rs:70-76 | against the challenge of a generated verifier the server accepts exactly the legal verifiers with the same digest, that one included |
| OneShot.LiveIff | rust/crates/ferridis-mcp-server/src/oauth_server.rs:240-247 | an entry is there iff nothing has taken what was last put under its key |
| OneShot.TakesFindDifferentPuts | rust/crates/ferridis-mcp-server/src/oauth_server.rs:369-421 | two takes that find something find different puts |
| OAuthServer.OAuthServer.RedirectUriAllowed | rust/crates/ferridis-mcp-server/src/oauth_server.rs:442-446 | allowed iff some prefix starts the URI |
| OAuthServer.OAuthServer.StartAuthorize | rust/crates/ferridis-mcp-server/src/oauth_server.rs:327-365 | reply and new state are those of the specified step |
| OAuthServer.OAuthServer.ExchangeCode | rust/crates/ferridis-mcp-server/src/oauth_server.rs:369-421 | reply and new state are those of the specified step |
| OAuthServer.OAuthServer.ValidateAccessToken | rust/crates/ferridis-mcp-server/src/oauth_server.rs:425-440 | reply and new state are those of the specified step, the sweep included |
| OAuthServer.AuthorizeIff | rust/crates/ferridis-mcp-server/src/oauth_server.rs:327-365 | in every run an authorization is granted, with its code, iff it asks for a code with a non-empty S256 challenge for a redirect URI that some allowed prefix starts; only then is anything stored, and that is its client, redirect URI, challenge and stamp |
| OAuthServer.AuthorizeRefusals | rust/crates/ferridis-mcp-server/src/oauth_server.rs:327-345 | which of the four refusals is given, the earliest check first |
| OAuthServer.ExchangeSucceedsIff | rust/crates/ferridis-mcp-server/src/oauth_server.rs:369-421 | in every run an exchange succeeds, with its token, iff its code's last authorization is untried, at most 120 s old, and matches in redirect URI, client and challenge |
| OAuthServer.ExchangeRefusals | rust/crates/ferridis-mcp-server/src/oauth_server.rs:369-400 | in every run, which of the six refusals is given, the earliest check first |
| OAuthServer.CodeIsThereIff | rust/crates/ferridis-mcp-server/src/oauth_server.rs:346-380 | in every run a code is there, with what was authorized, iff it was issued and not tried since |
| OAuthServer.ExchangesAreInjective | rust/crates/ferridis-mcp-server/src/oauth_server.rs:369-421 | successful exchanges redeem different authorizations |
| OAuthServer.RedeemedIsFresh | rust/crates/ferridis-mcp-server/src/oauth_server.rs:380-385 | a redeemed authorization is earlier, was granted and is at most 120 s old |
| OAuthServer.AttemptConsumes | rust/crates/ferridis-mcp-server/src/oauth_server.rs:375-400 | an attempt uses its code up whether or not it succeeds |
| OAuthServer.RegistrationIsUnobserved | rust/crates/ferridis-mcp-server/src/oauth_server.rs:294-311 | no reply of any run depends on what was registered |
| OAuthServer.ClientTable | rust/crates/ferridis-mcp-server/src/oauth_server.rs:294-311 | in every run the client table holds the last record registered under each id |
| OAuthServer.TokenTable | rust/crates/ferridis-mcp-server/src/oauth_server.rs:401-440 | the table holds a token's last issue unless it was swept after expiry |
| OAuthServer.ValidateIff | rust/crates/ferridis-mcp-server/src/oauth_server.rs:425-440 | a validation answers a client iff the token was last issued to it less than 24 h ago |
| OAuthServer.SweepKeepsTheLive | rust/crates/ferridis-mcp-server/src/oauth_server.rs:425-440 | a validation that fails leaves exactly the tokens that have not expired, one that succeeds leaves all |
| OAuthServer.EvictionIsUnobservable | rust/crates/ferridis-mcp-server/src/oauth_server.rs:425-440 | a server that never sweeps answers every run the same |
| ConnectionBroker.Broker.StartConnect | rust/crates/ferridis-protocol/src/broker.rs:95-151 | the capability reference, the whole authorize query with the endpoint's own pairs in front, and the pending entry, or the first of the two refusals |
| ConnectionBroker.Broker.Complete | rust/crates/ferridis-protocol/src/broker.rs:161-182 | the form with its secret goes to the entry's token endpoint, the entry is removed whatever the answer, and the answer with its lifetime is the connection; an unknown token is refused |
| ConnectionBroker.ConnectThenComplete | rust/crates/ferridis-protocol/src/broker.rs:95-182 | a connect and its complete post one form, to the configured token endpoint, with the grant type, the code, the configured redirect URI and client, the generated verifier and the client's secret; the connection has the tokens that come back and lasts as long as they say, or an hour |
| ConnectionBroker.OwnValues | rust/crates/ferridis-protocol/src/oauth.rs:114-130 | each appended name stands once, with its value; scopes only if there are any |
| ConnectionBroker.QueryValues | rust/crates/ferridis-protocol/src/oauth.rs:114-130 | under every name the query has the endpoint's values, then the appended one, then the extra ones |
| ConnectionBroker.QueryIsReadIff | rust/crates/ferridis-protocol/src/oauth.rs:105-131 | whatever the scopes, state and extra parameters are, a server that takes first values reads the fields that the broker means iff the authorize endpoint's own query gives none of the five another value first |
| ConnectionBroker.QueryIsAcceptedIff | rust/crates/ferridis-mcp-server/src/http_transport.rs:225-232 | this repository's server, whose query parser refuses repeated fields, accepts the query iff neither the endpoint nor the extra parameters repeat a field, and then reads what is meant |
| ConnectionBroker.RefOfManifestIff | rust/crates/ferridis-protocol/src/broker.rs:204-229 | any manifest id stands for a capability reference iff it has three dotted parts and what they put behind the registry, cut at its last @ and the last slash before that, has no empty part and a version; the reference has those parts |
| ConnectionBroker.PlainIdIff | rust/crates/ferridis-protocol/src/broker.rs:204-229 | an id without slash and @ stands for one iff it has three parts, its ends and middle are not empty, and it ends in a version: in the public registry, with the ends for namespace and version |
| ConnectionBroker.RedeemedAtMostOnce | rust/crates/ferridis-protocol/src/broker.rs:133-182 | in every history two completions never find the same connection, and each finds its own verifier |
| ConnectionBroker.HandshakeSucceeds | rust/crates/ferridis-protocol/src/oauth.rs:105-186 | in any run of this repository's server that read the broker's query, the broker's exchange of its own code in time succeeds |
| ConnectionBroker.LenientHandshakeSucceeds | rust/crates/ferridis-protocol/src/oauth.rs:105-186 | the same for a server that takes first values, when the endpoint's own query gives no other value first |
| Wallet.Wallet.Load | rust/crates/ferridis-client/src/wallet.rs:105-121 | the loop reads the index and then each listed entry, skipping missing ones |
| Wallet.Wallet.Insert | rust/crates/ferridis-client/src/wallet.rs:154-172 | store, memory and reply for every pattern of failing writes |
| Wallet.Wallet.Remove | rust/crates/ferridis-client/src/wallet.rs:177-193 | store, memory and reply for every pattern of failing writes |
| Wallet.Wallet.SaveIndex | rust/crates/ferridis-client/src/wallet.rs:240-249 | the index lists the keys in memory, in order |
| Wallet.Wallet.Find | rust/crates/ferridis-client/src/wallet.rs:200-204 | comparing references finds what comparing keys finds |
| Wallet.InsertInserts | rust/crates/ferridis-client/src/wallet.rs:154-172 | an insert writes that connection's entry and no other; in memory it replaces the connection of its capability, which is the answer, or comes last; the index lists memory unless its write fails, which is reported |
| Wallet.InsertKeeps | rust/crates/ferridis-client/src/wallet.rs:160-160 | an insert whose entry write fails changes nothing |
| Wallet.RemoveRemoves | rust/crates/ferridis-client/src/wallet.rs:177-193 | removing a held connection answers it, deletes its entry and no other, and leaves the other connections in order; the index as above |
| Wallet.RemoveKeeps | rust/crates/ferridis-client/src/wallet.rs:177-189 | removing what is not held, or failing to delete the entry, changes nothing |
| Wallet.OpensIff | rust/crates/ferridis-client/src/wallet.rs:105-121 | opening fails iff the index cannot be read or parsed, or a connection that it lists cannot |
| Wallet.LoadFails | rust/crates/ferridis-client/src/wallet.rs:105-121 | the first listed key that cannot be read or parsed decides the error |
| Wallet.MirrorInEveryRun | rust/crates/ferridis-client/src/wallet.rs:154-193 | in every run with failures and reopenings, keys are distinct, each entry is what the store holds, nothing stored is malformed |
| Wallet.OneSuccessHeals | rust/crates/ferridis-client/src/wallet.rs:105-193 | after any history one successful insert or removing remove makes reopening give the list exactly, in order |
| Wallet.SyncedReopens | rust/crates/ferridis-client/src/wallet.rs:105-121 | with an index that lists memory, reopening reads memory back |
| Wallet.LoadedIsPresent | rust/crates/ferridis-client/src/wallet.rs:105-121 | a load gives the listed keys that have entries, in order |
| Wallet.FailedInsertKeepsMemoryIff | rust/crates/ferridis-client/src/wallet.rs:147-171 | a failed insert keeps memory iff the entry write failed or that connection was already there |
| Wallet.FailedInsertChangesMemory | rust/crates/ferridis-client/src/wallet.rs:147-171 | a failing insert that changes memory |
| Wallet.KeyIsNotIndex | rust/crates/ferridis-client/src/wallet_store.rs:35-35 | no reference is displayed as the index account |
| FaithfulCodec.AFaithfulWalletCodecExists | rust/crates/ferridis-client/src/wallet.rs:105-121 | some codec reads back every connection and every index, so the assumption of the wallet theorems can be met |
| DiscoveryStore.ServiceStore.LoadState | rust/crates/ferridis-discovery-broker/src/store.rs:168-202 | the pinned entries of the file are loaded, bad ones skipped but counted, and each failure is reported |
| DiscoveryStore.ServiceStore.Register | rust/crates/ferridis-discovery-broker/src/store.rs:204-225 | the registry gains the entry; on success the file is a snapshot of it, on failure the file is unchanged |
| DiscoveryStore.ServiceStore.Remove | rust/crates/ferridis-discovery-broker/src/store.rs:227-233 | the registry loses the entry; the same about the file |
| DiscoveryStore.ServiceStore.Persist | rust/crates/ferridis-discovery-broker/src/store.rs:263-293 | a success leaves exactly the pinned entries in the file |
| DiscoveryStore.ServiceStore.List | rust/crates/ferridis-discovery-broker/src/store.rs:237-251 | exactly the live entries, each once and with whether it is pinned |
| DiscoveryStore.Pin | rust/crates/ferridis-discovery-broker/src/store.rs:267-281 | a list of exactly the pinned entries without repetition |
| DiscoveryStore.RestoresPinned | rust/crates/ferridis-discovery-broker/src/store.rs:168-202 | loading a snapshot into an empty registry restores exactly the pinned entries |
| DiscoveryStore.LoadedIff | rust/crates/ferridis-discovery-broker/src/store.rs:168-202 | from any state file the last entry of each name that parses is loaded, pinned, and everything else stays |
| DiscoveryStore.ParseServiceIff | rust/crates/ferridis-discovery-broker/src/store.rs:204-215 | a service is accepted iff its kind is known and its URL parses, and which error is given |
| DiscoveryStore.RestartAfterRegister | rust/crates/ferridis-discovery-broker/src/store.rs:168-225 | a store restarted after a registration has exactly the pinned entries |
| DiscoveryStore.RegisterIsSteps | rust/crates/ferridis-discovery-broker/src/store.rs:204-293 | the interleaved steps of one registration, with no other between them, do what the method does, for every disk outcome |
| DiscoveryStore.RemoveIsSteps | rust/crates/ferridis-discovery-broker/src/store.rs:227-293 | the same for a removal |
| DiscoveryStore.EveryStateIsMarked | rust/crates/ferridis-discovery-broker/src/store.rs:204-293 | in every interleaving, file, temporary file and copies in flight are each the pinned part of the registry at the step that copied it |
| DiscoveryStore.FileRestoresItsCopy | rust/crates/ferridis-discovery-broker/src/store.rs:168-293 | in every reachable state a restart restores exactly the pinned part of the registry that the copy moved by the last successful rename was taken from, and nothing when no rename has succeeded |
| DiscoveryStore.RegistrationSurvivesIff | rust/crates/ferridis-discovery-broker/src/store.rs:204-293 | a pinned registration untouched since survives a restart iff that copy was taken after it or already had the same entry |
| DiscoveryStore.RemovalSurvivesIff | rust/crates/ferridis-discovery-broker/src/store.rs:224-293 | a removal untouched since survives a restart iff no copy is in the file, or that copy was taken after the removal or did not have the service pinned |
| DiscoveryStore.LateWriterErases | rust/crates/ferridis-discovery-broker/src/store.rs:263-293 | in every run, a call that copied before a new registration and writes after it erases it from the file |
| DiscoveryStore.SerialRestartsRestore | rust/crates/ferridis-discovery-broker/src/store.rs:168-293 | when calls do not overlap and the disk works, a restart restores the current pinned entries |
| DiscoveryStore.OverlapLosesARegistration | rust/crates/ferridis-discovery-broker/src/store.rs:263-293 | for any two services, an overlap of two successful registrations after which a restart has lost one |
| Heartbeat.SpawnHeartbeat | rust/crates/ferridis-adapter-sdk/src/broker.rs:353-369 | when each turn of the loop sends its registration, whether or not the ones before it failed |
| Heartbeat.TicksAre | rust/crates/ferridis-adapter-sdk/src/broker.rs:353-369 | ticks are multiples of the interval from the start, and a request goes out at its tick or at once when the one before returns later |
| Heartbeat.KeepsPace | rust/crates/ferridis-adapter-sdk/src/broker.rs:353-369 | round trips shorter than the interval never make it miss a tick |
| Heartbeat.CoveredIff | rust/crates/ferridis-discovery-broker/src/store.rs:57-74 | for any interval, round trips and failures, every instant from the first registration on is within the time-to-live of a successful one iff each successful one is followed by another within the time-to-live |
| Heartbeat.RenewedIff | rust/crates/ferridis-adapter-sdk/src/broker.rs:353-369 | when the next registration succeeds, that is iff the broker handles it at most 300 s after this one |
| Heartbeat.InTimeIff | rust/crates/ferridis-adapter-sdk/src/broker.rs:353-369 | with every registration successful and every trip shorter than the interval, that holds throughout iff the first return and second request, and each later request compared with the one before, stay within the slack between interval and time-to-live |
| Heartbeat.PromptIff | rust/crates/ferridis-adapter-sdk/src/broker.rs:263-308 | at 240 s and with round trips under 30 s, it holds iff no registration fails: a single lost one is too many |
| Heartbeat.ListedIff | rust/crates/ferridis-discovery-broker/src/store.rs:57-74 | after any history a service is listed iff the last thing said about it was a registration, pinned or less than 300 s old |
| Heartbeat.StaysListedIff | rust/crates/ferridis-adapter-sdk/src/broker.rs:263-308 | an ephemeral service that only its handle touches is listed at every instant from its first registration on iff every successful registration is renewed within the time-to-live |
| Heartbeat.StaysListed | rust/crates/ferridis-adapter-sdk/src/broker.rs:263-308 | at 240 s, round trips under 30 s that all succeed are enough |
| Heartbeat.PinnedStaysListed | rust/crates/ferridis-adapter-sdk/src/broker.rs:263-308 | a pinned service is listed from its first registration on, also when none follows |
| Heartbeat.LateBeatLeavesAGap | rust/crates/ferridis-discovery-broker/src/store.rs:57-74 | a successful registration that is not renewed in time leaves the service unlisted at the instant it runs out |
| Heartbeat.SlowTripsLeaveAGap | rust/crates/ferridis-discovery-broker/src/store.rs:13-13 | a slow return of the first registration and a slow second request do so, whatever follows |
| Mesh.MeshClient.LookupCached | rust/crates/ferridis-protocol/src/mesh.rs:295-320 | hit, eviction and miss, and the check of a hit |
| Mesh.MeshClient.FetchAndVerify | rust/crates/ferridis-protocol/src/mesh.rs:268-293 | cache and reply for every answer of the mesh |
| Mesh.FreshIff | rust/crates/ferridis-protocol/src/mesh.rs:268-293 | with nothing young enough cached, an artifact is returned iff it is what the mesh gave, its bundle parses and its signature verifies then |
| Mesh.FreshFailures | rust/crates/ferridis-protocol/src/mesh.rs:268-293 | which error is returned otherwise, in the order of the checks |
| Mesh.FreshIsCached | rust/crates/ferridis-protocol/src/mesh.rs:278-287 | exactly a successful fetch is cached, as returned and stamped at the insertion, unless caching is off; other capabilities are untouched |
| Mesh.CachedAnswersIff | rust/crates/ferridis-protocol/src/mesh.rs:268-276 | with something young enough cached, the cached bytes are returned iff they verify again, and the cache stays |
| Mesh.CachedIff | rust/crates/ferridis-protocol/src/mesh.rs:268-320 | in every interleaved run of clones that share a cache, each with its own TTL, a capability is cached, as last inserted, iff it was inserted and no later lookup found it older than its own TTL |
| Mesh.LookupIff | rust/crates/ferridis-protocol/src/mesh.rs:295-320 | in every such run a lookup answers iff the last insertion is no older than the reader's own TTL and no lookup in between evicted it, with a fresh check of the bytes inserted then |
| Mesh.HitIsVerifiedAndRecent | rust/crates/ferridis-protocol/src/mesh.rs:295-320 | an artifact returned from the cache verifies now and is what the mesh gave at an insertion within the reader's own TTL |
| Mesh.FederatedMesh.FetchAndVerify | rust/crates/ferridis-protocol/src/mesh.rs:477-505 | with any caches shared among the clients, the first answer in turn that is not a 404 is returned, each asked client's cache is as its own lookup leaves it, and later meshes are not asked |
| Mesh.CourseFrom | rust/crates/ferridis-protocol/src/mesh.rs:477-505 | from any caches there is a course of answers and caches for the federation to follow |
| Mesh.FirstAnswerWins | rust/crates/ferridis-protocol/src/mesh.rs:477-505 | in priority order, the first answer that is not a 404 is the outcome, whatever comes after it |
| Mesh.NotFoundIff | rust/crates/ferridis-protocol/src/mesh.rs:477-505 | not-found is reported iff every mesh answers 404, and names the URL of the last one |
| Capability.DisplayOfParse | rust/crates/ferridis-core/src/capability.rs:87-151 | what is displayed for an accepted string is that string |
| Capability.ParseOfDisplay | rust/crates/ferridis-core/src/capability.rs:32-151 | every reference is read back from its display |
| Capability.DisplayInjective | rust/crates/ferridis-core/src/capability.rs:87-151 | different references are displayed differently |
| Capability.ParseIff | rust/crates/ferridis-core/src/capability.rs:87-120 | a reference put together from its parts parses, to those parts, iff none is empty and the version is one |
| Capability.ParseBehind | rust/crates/ferridis-core/src/capability.rs:87-120 | whatever text follows a registry without slash and @, parsing cuts it at its last @ and the last slash before that, and fails iff a part is missing, empty or no version |
| Capability.PathFaults | rust/crates/ferridis-core/src/capability.rs:87-120 | which error a path and a version give, the version first |
| Capability.VersionIff | rust/crates/ferridis-core/src/capability.rs:31-52 | a version is v and then one or more digits and dots |
| Capability.MeshPathInjective | rust/crates/ferridis-protocol/src/mesh.rs:398-407 | different references have different mesh paths |
| Capability.MeshPathIs | rust/crates/ferridis-protocol/src/mesh.rs:398-407 | the segments of a mesh path: registry, namespace, id, version, file |
| IntentVerbs.ParsesIffWords | rust/crates/ferridis-core/src/intent.rs:38-59 | a string is a verb iff its dash-separated parts are all non-empty words of lower-case letters and digits |
| IntentVerbs.Refusals | rust/crates/ferridis-core/src/intent.rs:38-59 | which refusal is given: nothing, a bad character, or an empty word |
| Slugs.Slugify | rust/crates/ferridis-client/src/mcp/mod.rs:169-185 | the one-pass loop gives the dash-joined list of the name's lower-cased words |
| Slugs.SlugIsVerb | rust/crates/ferridis-client/src/mcp/mod.rs:169-185 | a slug is empty or a verb |
| Slugs.SlugEmptyIff | rust/crates/ferridis-client/src/mcp/mod.rs:160-185 | it is empty iff the name has no ASCII letter or digit |
| Slugs.FixedIff | rust/crates/ferridis-client/src/mcp/mod.rs:169-185 | slugging leaves exactly the verbs and the empty string unchanged |
| Slugs.SlugIdempotent | rust/crates/ferridis-client/src/mcp/mod.rs:169-185 | slugging twice is slugging once |
| Slugs.CollideIff | rust/crates/ferridis-client/src/mcp/mod.rs:83-101 | two names collide iff they have the same words |
| Slugs.ProjectTools | rust/crates/ferridis-client/src/mcp/mod.rs:83-101 | the projection succeeds iff no slug is empty or repeated, then holds every tool and its schema under its slug; otherwise it names the first fault |
| ToolCatalogues.ToolCatalogue.FromAdapters | rust/crates/ferridis-mcp-server/src/tools.rs:52-73 | the tools, with descriptions and schemas, are the publications in order and each name maps to the last one under it |
| ToolCatalogues.ToolIs | rust/crates/ferridis-mcp-server/src/tools.rs:52-100 | a tool's name, description and target in full, and its schema: the adapter's own or else the built-in one |
| ToolCatalogues.LastIff | rust/crates/ferridis-mcp-server/src/tools.rs:52-78 | a name resolves to a target iff the last publication under it has that target |
| ToolCatalogues.ToolNameInjective | rust/crates/ferridis-mcp-server/src/tools.rs:87-91 | under one id, different verbs are published under different names |
| ToolCatalogues.NameLoop | rust/crates/ferridis-mcp-server/src/tools.rs:52-91 | for one adapter, tool to verb to published name to target leads back to the tool, with its own schema |
| ToolCatalogues.ReachableIff | rust/crates/ferridis-mcp-server/src/tools.rs:52-78 | over many adapters an intent is reachable iff no later adapter reuses its tool name, or the last that does publishes the same intent of the same capability |
| ToolCatalogues.NamesClashIff | rust/crates/ferridis-mcp-server/src/tools.rs:87-91 | for all ids and verbs, two published names are equal iff id and verb, dash-joined, differ only in which separator stands where |
| ToolCatalogues.NamesCanClash | rust/crates/ferridis-mcp-server/src/tools.rs:87-91 | two pairs that clash, one of them across the boundary between id and verb |
| ToolCatalogues.RepublishedWords | rust/crates/ferridis-core/src/intent.rs:10-19 | a published name that is projected again keeps the words of id and verb, under one more |
| McpProjection.ProjectToolsToManifest | rust/crates/ferridis-client/src/mcp/mod.rs:74-140 | the whole function succeeds iff the tools project cleanly and there is one, the summary fits, the schema URL parses and the capability reference parses; the manifest then has the server's name, id, summary and schema URL and the projected verbs as plain requests, and its tables lead back to the tools; which of the three kinds of failure it is otherwise |
| McpProjection.CapabilityParsesIff | rust/crates/ferridis-client/src/mcp/mod.rs:130-133 | for every version string, the reference is what is read behind the registry when cut at the last @ of all |
| McpProjection.PlainVersionIff | rust/crates/ferridis-client/src/mcp/mod.rs:130-133 | with a version that has no @, it parses iff the namespace is not empty, the server's name has a letter or digit and the version is one, to the wallet registry, namespace, slug and version |
| McpProjection.ProjectedLoop | rust/crates/ferridis-client/src/mcp/mod.rs:74-140 | through the parsed manifest and the catalogue, every published tool resolves back to the MCP tool it came from |
| Manifests.Validate | rust/crates/ferridis-core/src/manifest.rs:412-532 | the checks in the code's order, each with its error |
| Manifests.ReadIntents | rust/crates/ferridis-core/src/manifest.rs:431-475 | the loop over intent entries computes the specified tables or the first error |
| Manifests.ReadChannels | rust/crates/ferridis-core/src/manifest.rs:497-512 | the loop over event channels computes the specified list or the first error |
| Manifests.AddIntentsIff | rust/crates/ferridis-core/src/manifest.rs:431-475 | reading the intents succeeds iff every entry is valid and no verb repeats, and the tables hold exactly what the entries declare |
| Manifests.AddChannelsIff | rust/crates/ferridis-core/src/manifest.rs:497-512 | reading the event channels succeeds iff each is valid and no name repeats, and keeps each, in order, with its name, its transport and its parsed chunk-schema URL |
| Manifests.EntryFaults | rust/crates/ferridis-core/src/manifest.rs:431-475 | which refusal an intent entry gets, the earliest check first |
| Manifests.FirstFaultyEntry | rust/crates/ferridis-core/src/manifest.rs:431-475 | the first refused entry decides the error |
| Manifests.ChannelFaults | rust/crates/ferridis-core/src/manifest.rs:497-512 | which refusal an event channel gets |
| Manifests.FirstFaultyChannel | rust/crates/ferridis-core/src/manifest.rs:497-512 | the first refused channel decides the error |
| Manifests.FieldsIff | rust/crates/ferridis-core/src/manifest.rs:265-322 | what a category and a summary may be, and how others are refused |
| Manifests.ValidatedIff | rust/crates/ferridis-core/src/manifest.rs:412-532 | a manifest is accepted iff it is complete and every field is valid |
| Manifests.FirstFaultIsReported | rust/crates/ferridis-core/src/manifest.rs:412-532 | a manifest is refused with the first of its faults in the listed order, and accepted when it has none |
| Manifests.ValidatedKeeps | rust/crates/ferridis-core/src/manifest.rs:412-532 | what an accepted manifest keeps of each raw field |
| Manifests.ValidatedIsValid | rust/crates/ferridis-core/src/manifest.rs:412-532 | what every validated manifest is |
| ManifestServing.ServeRoundTrip | rust/crates/ferridis-adapter-sdk/src/server.rs:72-150 | reading what is served for any validated manifest succeeds and gives it back, without the three fields that are not served |
| ManifestServing.ServedUnchangedIff | rust/crates/ferridis-adapter-sdk/src/server.rs:72-150 | it comes back unchanged iff it declares no events URL, no event channel and no endpoint URL |
| ManifestServing.RereadIntents | rust/crates/ferridis-adapter-sdk/src/server.rs:84-119 | kinds and chunk schemas survive for every intent, in whatever order the set is served |
| ManifestServing.DecodeServed | rust/crates/ferridis-core/src/manifest.rs:344-409 | the served JSON decodes to the raw manifest field by field |
| ManifestServing.DecodeManifestIff | rust/crates/ferridis-core/src/manifest.rs:344-410 | exactly which JSON objects read as which raw manifest: every key, every spelling of kinds, transports, tiers and auth methods, and what absence and null mean |
| PathResolve.Root.Resolve | rust/crates/ferridis-adapter-fs/src/path.rs:66-90 | the stack loop and the path buffer give the specified result |
| PathResolve.Root.Accumulate | rust/crates/ferridis-adapter-fs/src/path.rs:70-84 | the loop over components is the specified walk |
| PathResolve.WalkIsReference | rust/crates/ferridis-adapter-fs/src/path.rs:69-84 | from any stack, the walk equals the reduction that has no stack |
| PathResolve.ResolvesIff | rust/crates/ferridis-adapter-fs/src/path.rs:66-90 | a path resolves iff no prefix has more parent steps than names, to the names nothing later climbs back over |
| PathResolve.ResultIsNames | rust/crates/ferridis-adapter-fs/src/path.rs:66-90 | only ordinary names are left |
| PathResolve.ResolveIdempotent | rust/crates/ferridis-adapter-fs/src/path.rs:66-90 | resolving a resolved path changes nothing |
| PathResolve.ResolveStaged | rust/crates/ferridis-adapter-fs/src/path.rs:66-90 | resolving p and then q below it is resolving p/q; a p that fails cannot be rescued |
| PathResolve.ResultIsUnderRoot | rust/crates/ferridis-adapter-fs/src/path.rs:92-94 | the absolute path has the root's components and then the resolved names |

## Left out

- JSON text syntax: `Json.Codec` is any printer and parser that are inverse and keep text on one line; numbers are decimal literals, and the parser's rounding and depth limit are not modelled.
- JSON forms that serde also accepts for structs and unit variants (arrays for structs, single-key objects for manifest kinds, tiers and transports) are read as malformed; the served manifest uses none of them.
- URL syntax and normalisation: `Urls.Parser` is any parser that parses what it displays to itself.
- SHA-256 is any function to 32 bytes; signature and certificate checking is any predicate of bytes, bundle and time.
- HTTP, routing, timers and tasks: the byte stream under the parser is a script of polls, concurrency is interleaved steps, an endless loop is shown as its first n turns.
- An adapter's flow stream is a finite sequence; one that never ends is covered through its prefixes by the truncation theorems.
- Random tokens and clock readings are arguments; one locked section reads the clock once.
- A write of a file is atomic and one that fails changes nothing; torn writes of the temporary file are not modelled. A store operation of the wallet that fails changes nothing.
- Broadcast channels, tracing and the legacy-file check of the wallet.
- Error texts: errors are constructors, and fields that only decorate a message are dropped.
- ToolCatalogues.ToolCatalogue.FromAdapters: the table of built-in schemas is any function of id and intent.
- ConnectionBroker.Broker.StartConnect: a query is its decoded name-value pairs; percent-encoding is left to the URL library.
- ConnectionBroker.Broker.Complete: token lifetimes are unbounded numbers of seconds, and the token endpoint is any function of URL and form.
- Sorted iteration of the intent set: serving and publishing are proved for every order of iteration.
- PathResolve.Root.Resolve: does not model the drive prefixes and backslashes of Windows, because the claims are about slash-separated paths; symbolic links are outside the resolver.
- GitHub, Slack, Notion and calendar adapters, the WebSocket transport, OpenAPI schema handling, certificate, CRL and TUF parsing, keychains, mDNS, child processes and the command line: wrappers over other libraries or operating-system effects.
- Registry candidate ordering, connection projections, identifier validators and error-to-status tables: true but easy.
