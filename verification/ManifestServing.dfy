/**
 Serving a manifest and reading it back: the JSON that `ferridis-adapter-sdk/src/server.rs`
 builds from a manifest, and the reading of it by `ferridis-core/src/manifest.rs`.
 */
module ManifestServing {
  import opened Wrappers
  import opened Json
  import opened Manifests
  import Urls

  type Fields = map<string, Value>

  // ---- Reading ----------------------------------------------------------------------

  /** An optional field: absent and null mean the same; any other value must decode. */
  function Optional<T>(o: Fields, key: string, decode: Value -> Option<T>): Option<Option<T>> {
    if key !in o || o[key].Null? then Some(None)
    else match decode(o[key])
      case Some(t) => Some(Some(t))
      case None => None
  }

  function DecodeString(v: Value): Option<string> {
    if v.String? then Some(v.s) else None
  }

  function DecodeAll<T>(items: seq<Value>, decode: Value -> Option<T>): Option<seq<T>> {
    if items == [] then Some([])
    else
      var first, rest := decode(items[0]), DecodeAll(items[1..], decode);
      if first.Some? && rest.Some? then Some([first.value] + rest.value) else None
  }

  function DecodeKind(v: Value): Option<IntentKind> {
    if v == String("request") then Some(Request) else if v == String("stream") then Some(Stream) else None
  }

  /** A flat verb, or an object; nothing else. */
  function DecodeIntent(v: Value): Option<RawIntent> {
    if v.String? then Some(Flat(v.s))
    else if !v.Object? then None
    else
      var verb := if "verb" in v.fields then DecodeString(v.fields["verb"]) else None;
      var kind := Optional(v.fields, "kind", DecodeKind);
      var chunk := Optional(v.fields, "chunk_schema_url", DecodeString);
      if verb.Some? && kind.Some? && chunk.Some? then Some(Structured(verb.value, kind.value, chunk.value)) else None
  }

  function DecodeIntents(v: Value): Option<seq<RawIntent>> {
    if v.Array? then DecodeAll(v.items, DecodeIntent) else None
  }

  function DecodeSchemaRef(v: Value): Option<RawSchemaRef> {
    if v.Object? && "type" in v.fields && "url" in v.fields && v.fields["type"].String? && v.fields["url"].String?
    then Some(RawSchemaRef(v.fields["type"].s, v.fields["url"].s))
    else None
  }

  function DecodeTransport(v: Value): Option<Transport> {
    if v == String("sse") then Some(Transport.Sse)
    else if v == String("websocket") then Some(Transport.WebSocket)
    else None
  }

  function DecodeChannel(v: Value): Option<EventChannel> {
    if !v.Object? then None
    else
      var name := if "name" in v.fields then DecodeString(v.fields["name"]) else None;
      var chunk := Optional(v.fields, "chunk_schema_url", DecodeString);
      var transport := if "transport" in v.fields then DecodeTransport(v.fields["transport"]) else Some(Transport.Sse);
      if name.Some? && chunk.Some? && transport.Some? then Some(EventChannel(name.value, chunk.value, transport.value))
      else None
  }

  function DecodeChannels(o: Fields): Option<seq<EventChannel>> {
    if "event_channels" !in o then Some([])
    else if o["event_channels"].Array? then DecodeAll(o["event_channels"].items, DecodeChannel)
    else None
  }

  function DecodeTier(v: Value): Option<Tier> {
    if v == String("native") then Some(Native)
    else if v == String("browser") then Some(Browser)
    else if v == String("vision") then Some(Vision)
    else None
  }

  function DecodeTiers(v: Value): Option<seq<Tier>> {
    if v.Array? then DecodeAll(v.items, DecodeTier) else None
  }

  function DecodeStrings(v: Value): Option<seq<string>> {
    if v.Array? then DecodeAll(v.items, DecodeString) else None
  }

  /** The method is chosen by its tag. */
  function DecodeAuth(v: Value): Option<AuthMethod> {
    if !v.Object? || "type" !in v.fields then None
    else if v.fields["type"] == String("none") then Some(NoAuth)
    else if v.fields["type"] == String("oauth2") then
      (if "scopes" !in v.fields then None
       else match DecodeStrings(v.fields["scopes"])
         case Some(scopes) => Some(Oauth2(scopes))
         case None => None)
    else if v.fields["type"] == String("api_key") then
      (if "header" in v.fields && v.fields["header"].String? then Some(ApiKey(v.fields["header"].s)) else None)
    else None
  }

  function DecodeManifest(v: Value): Option<RawManifest> {
    if !v.Object? then None
    else
      var o := v.fields;
      var version := Optional(o, "ferridis_version", DecodeString);
      var id := Optional(o, "id", DecodeString);
      var name := Optional(o, "name", DecodeString);
      var category := Optional(o, "category", DecodeString);
      var summary := Optional(o, "summary", DecodeString);
      var intents := Optional(o, "intents", DecodeIntents);
      var schema := Optional(o, "schema", DecodeSchemaRef);
      var events := Optional(o, "events", DecodeSchemaRef);
      var channels := DecodeChannels(o);
      var endpointUrl := Optional(o, "endpoint_url", DecodeString);
      var tiers := Optional(o, "tiers", DecodeTiers);
      var auth := Optional(o, "auth", DecodeAuth);
      if version.Some? && id.Some? && name.Some? && category.Some? && summary.Some? && intents.Some?
         && schema.Some? && events.Some? && channels.Some? && endpointUrl.Some? && tiers.Some? && auth.Some?
      then
        Some(RawManifest(
               version.value, id.value, name.value, category.value, summary.value, intents.value,
               schema.value, events.value, channels.value, endpointUrl.value, tiers.value, auth.value))
      else None
  }

  function Parse(urls: Urls.Parser, v: Value): Result<Manifest, ManifestError> {
    match DecodeManifest(v)
    case None => Err(Malformed)
    case Some(raw) => Validated(urls, raw)
  }

  // ---- Which JSON reads as which manifest -------------------------------------------

  /** An optional text under a key: the string, or when there is none, nothing or null. */
  ghost predicate SaysText(o: Fields, key: string, text: Option<string>) {
    if text.Some? then key in o && o[key] == String(text.value) else key !in o || o[key] == Null
  }

  ghost predicate SpellsStrings(v: Value, ss: seq<string>) {
    v.Array? && |v.items| == |ss| && forall k :: 0 <= k < |ss| ==> v.items[k] == String(ss[k])
  }

  ghost predicate SpellsIntent(v: Value, raw: RawIntent) {
    match raw
    case Flat(verb) => v == String(verb)
    case Structured(verb, kind, chunk) =>
      && v.Object? && "verb" in v.fields && v.fields["verb"] == String(verb)
      && SaysText(v.fields, "chunk_schema_url", chunk)
      && SaysText(v.fields, "kind", if kind.None? then None
                                    else Some(if kind.value == Request then "request" else "stream"))
  }

  ghost predicate SpellsSchema(v: Value, r: RawSchemaRef) {
    v.Object? && SaysText(v.fields, "type", Some(r.ty)) && SaysText(v.fields, "url", Some(r.url))
  }

  /** The transport of a channel is server-sent events unless it says otherwise. */
  ghost predicate SpellsChannel(v: Value, c: EventChannel) {
    && v.Object? && SaysText(v.fields, "name", Some(c.name))
    && SaysText(v.fields, "chunk_schema_url", c.chunkSchemaUrl)
    && if "transport" in v.fields then
         v.fields["transport"] == String(if c.transport == Transport.Sse then "sse" else "websocket")
       else c.transport == Transport.Sse
  }

  ghost predicate SpellsTier(v: Value, t: Tier) {
    v == String(match t case Native => "native" case Browser => "browser" case Vision => "vision")
  }

  ghost predicate SpellsAuth(v: Value, auth: AuthMethod) {
    v.Object? &&
    match auth
    case NoAuth => SaysText(v.fields, "type", Some("none"))
    case Oauth2(scopes) =>
      SaysText(v.fields, "type", Some("oauth2")) && "scopes" in v.fields && SpellsStrings(v.fields["scopes"], scopes)
    case ApiKey(header) =>
      SaysText(v.fields, "type", Some("api_key")) && SaysText(v.fields, "header", Some(header))
  }

  ghost predicate SaysIntents(o: Fields, intents: Option<seq<RawIntent>>) {
    if intents.None? then "intents" !in o || o["intents"] == Null
    else
      && "intents" in o && o["intents"].Array? && |o["intents"].items| == |intents.value|
      && forall k :: 0 <= k < |intents.value| ==> SpellsIntent(o["intents"].items[k], intents.value[k])
  }

  ghost predicate SaysSchema(o: Fields, key: string, r: Option<RawSchemaRef>) {
    if r.None? then key !in o || o[key] == Null else key in o && SpellsSchema(o[key], r.value)
  }

  /** Unlike the other fields, the channels may be missing but not null. */
  ghost predicate SaysChannels(o: Fields, channels: seq<EventChannel>) {
    if "event_channels" !in o then channels == []
    else
      && o["event_channels"].Array? && |o["event_channels"].items| == |channels|
      && forall k :: 0 <= k < |channels| ==> SpellsChannel(o["event_channels"].items[k], channels[k])
  }

  ghost predicate SaysTiers(o: Fields, tiers: Option<seq<Tier>>) {
    if tiers.None? then "tiers" !in o || o["tiers"] == Null
    else
      && "tiers" in o && o["tiers"].Array? && |o["tiers"].items| == |tiers.value|
      && forall k :: 0 <= k < |tiers.value| ==> SpellsTier(o["tiers"].items[k], tiers.value[k])
  }

  ghost predicate SaysAuth(o: Fields, auth: Option<AuthMethod>) {
    if auth.None? then "auth" !in o || o["auth"] == Null else "auth" in o && SpellsAuth(o["auth"], auth.value)
  }

  ghost predicate SaysTexts(o: Fields, raw: RawManifest) {
    && SaysText(o, "ferridis_version", raw.version) && SaysText(o, "id", raw.id) && SaysText(o, "name", raw.name)
    && SaysText(o, "category", raw.category) && SaysText(o, "summary", raw.summary)
    && SaysText(o, "endpoint_url", raw.endpointUrl)
  }

  ghost predicate SaysParts(o: Fields, raw: RawManifest) {
    && SaysIntents(o, raw.intents) && SaysSchema(o, "schema", raw.schema) && SaysSchema(o, "events", raw.events)
    && SaysChannels(o, raw.channels) && SaysTiers(o, raw.tiers) && SaysAuth(o, raw.auth)
  }

  lemma {:induction false} DecodeAllIff<T>(items: seq<Value>, decode: Value -> Option<T>, ts: seq<T>)
    ensures DecodeAll(items, decode) == Some(ts) <==>
      |items| == |ts| && forall k :: 0 <= k < |ts| ==> decode(items[k]) == Some(ts[k])
  {
    if items != [] {
      var rest := DecodeAll(items[1..], decode);
      if ts != [] {
        assert ts == [ts[0]] + ts[1..];
        DecodeAllIff(items[1..], decode, ts[1..]);
        if DecodeAll(items, decode) == Some(ts) {
          assert rest.value == ([decode(items[0]).value] + rest.value)[1..];
          assert forall k :: 0 < k < |ts| ==> items[1..][k - 1] == items[k] && ts[1..][k - 1] == ts[k];
        }
      }
    }
  }

  lemma TextIff(o: Fields, key: string, text: Option<string>)
    ensures Optional(o, key, DecodeString) == Some(text) <==> SaysText(o, key, text)
  {
  }

  lemma IntentIff(v: Value, raw: RawIntent)
    ensures DecodeIntent(v) == Some(raw) <==> SpellsIntent(v, raw)
  {
    if v.Object? && raw.Structured? {
      TextIff(v.fields, "chunk_schema_url", raw.chunkSchemaUrl);
    }
  }

  lemma IntentsIff(o: Fields, intents: Option<seq<RawIntent>>)
    ensures Optional(o, "intents", DecodeIntents) == Some(intents) <==> SaysIntents(o, intents)
  {
    if intents.Some? && "intents" in o && o["intents"].Array? {
      var items := o["intents"].items;
      DecodeAllIff(items, DecodeIntent, intents.value);
      forall k | 0 <= k < |items| && |items| == |intents.value|
        ensures DecodeIntent(items[k]) == Some(intents.value[k]) <==> SpellsIntent(items[k], intents.value[k])
      {
        IntentIff(items[k], intents.value[k]);
      }
    }
  }

  lemma SchemaIff(o: Fields, key: string, r: Option<RawSchemaRef>)
    ensures Optional(o, key, DecodeSchemaRef) == Some(r) <==> SaysSchema(o, key, r)
  {
  }

  lemma ChannelIff(v: Value, c: EventChannel)
    ensures DecodeChannel(v) == Some(c) <==> SpellsChannel(v, c)
  {
    if v.Object? {
      TextIff(v.fields, "chunk_schema_url", c.chunkSchemaUrl);
    }
  }

  lemma ChannelsIff(o: Fields, channels: seq<EventChannel>)
    ensures DecodeChannels(o) == Some(channels) <==> SaysChannels(o, channels)
  {
    if "event_channels" in o && o["event_channels"].Array? {
      var items := o["event_channels"].items;
      DecodeAllIff(items, DecodeChannel, channels);
      forall k | 0 <= k < |items| && |items| == |channels|
        ensures DecodeChannel(items[k]) == Some(channels[k]) <==> SpellsChannel(items[k], channels[k])
      {
        ChannelIff(items[k], channels[k]);
      }
    }
  }

  lemma TiersIff(o: Fields, tiers: Option<seq<Tier>>)
    ensures Optional(o, "tiers", DecodeTiers) == Some(tiers) <==> SaysTiers(o, tiers)
  {
    if tiers.Some? && "tiers" in o && o["tiers"].Array? {
      var items := o["tiers"].items;
      DecodeAllIff(items, DecodeTier, tiers.value);
      assert forall k :: 0 <= k < |items| && |items| == |tiers.value| ==>
        (DecodeTier(items[k]) == Some(tiers.value[k]) <==> SpellsTier(items[k], tiers.value[k]));
    }
  }

  lemma StringsIff(v: Value, ss: seq<string>)
    ensures DecodeStrings(v) == Some(ss) <==> SpellsStrings(v, ss)
  {
    if v.Array? {
      DecodeAllIff(v.items, DecodeString, ss);
    }
  }

  lemma AuthIff(v: Value, auth: AuthMethod)
    ensures DecodeAuth(v) == Some(auth) <==> SpellsAuth(v, auth)
  {
    if v.Object? && "scopes" in v.fields && auth.Oauth2? {
      StringsIff(v.fields["scopes"], auth.scopes);
    }
  }

  lemma OptionalAuthIff(o: Fields, auth: Option<AuthMethod>)
    ensures Optional(o, "auth", DecodeAuth) == Some(auth) <==> SaysAuth(o, auth)
  {
    if auth.Some? && "auth" in o {
      AuthIff(o["auth"], auth.value);
    }
  }

  /** Exactly these JSON objects read as this raw manifest; keys that it does not know are passed over. */
  lemma DecodeManifestIff(v: Value, raw: RawManifest)
    ensures DecodeManifest(v) == Some(raw) <==> v.Object? && SaysTexts(v.fields, raw) && SaysParts(v.fields, raw)
  {
    if v.Object? {
      var o := v.fields;
      TextIff(o, "ferridis_version", raw.version);
      TextIff(o, "id", raw.id);
      TextIff(o, "name", raw.name);
      TextIff(o, "category", raw.category);
      TextIff(o, "summary", raw.summary);
      TextIff(o, "endpoint_url", raw.endpointUrl);
      IntentsIff(o, raw.intents);
      SchemaIff(o, "schema", raw.schema);
      SchemaIff(o, "events", raw.events);
      ChannelsIff(o, raw.channels);
      TiersIff(o, raw.tiers);
      OptionalAuthIff(o, raw.auth);
    }
  }

  // ---- Serving ----------------------------------------------------------------------

  /** The intents in the order in which their set is iterated. */
  ghost predicate Lists(order: seq<string>, verbs: set<string>) {
    && (forall v :: v in verbs <==> v in order)
    && forall j, k :: 0 <= j < k < |order| ==> order[j] != order[k]
  }

  function KindText(kind: IntentKind): string {
    match kind
    case Request => "request"
    case Stream => "stream"
  }

  function ServeIntent(m: Manifest, verb: string): Value {
    if verb !in m.metadata || m.metadata[verb] == IntentMetadata(Request, None) then String(verb)
    else
      var md := m.metadata[verb];
      var fields: Fields := map["verb" := String(verb), "kind" := String(KindText(md.kind))];
      Object(if md.chunkSchemaUrl.Some? then fields["chunk_schema_url" := String(md.chunkSchemaUrl.value)] else fields)
  }

  function ServeIntents(m: Manifest, order: seq<string>): seq<Value> {
    seq(|order|, k requires 0 <= k < |order| => ServeIntent(m, order[k]))
  }

  function TierText(t: Tier): string {
    match t
    case Native => "native"
    case Browser => "browser"
    case Vision => "vision"
  }

  function ServeTiers(tiers: seq<Tier>): seq<Value> {
    seq(|tiers|, k requires 0 <= k < |tiers| => String(TierText(tiers[k])))
  }

  function ServeStrings(ss: seq<string>): seq<Value> {
    seq(|ss|, k requires 0 <= k < |ss| => String(ss[k]))
  }

  function ServeAuth(auth: AuthMethod): Value {
    match auth
    case NoAuth => Object(map["type" := String("none")])
    case Oauth2(scopes) => Object(map["type" := String("oauth2"), "scopes" := Array(ServeStrings(scopes))])
    case ApiKey(header) => Object(map["type" := String("api_key"), "header" := String(header)])
  }

  /** The nine fields that a served manifest has. */
  datatype Document = Document(
    version: string, id: string, name: string, category: string, summary: string,
    intents: Value, schema: RawSchemaRef, tiers: Value, auth: Value)

  function ToJson(d: Document): Value {
    Object(map[
      "ferridis_version" := String(d.version),
      "id" := String(d.id),
      "name" := String(d.name),
      "category" := String(d.category),
      "summary" := String(d.summary),
      "intents" := d.intents,
      "schema" := Object(map["type" := String(d.schema.ty), "url" := String(d.schema.url)]),
      "tiers" := d.tiers,
      "auth" := d.auth])
  }

  function ServeManifest(m: Manifest, order: seq<string>): Value {
    ToJson(Document(
      m.version, m.id, m.name, m.category, m.summary, Array(ServeIntents(m, order)),
      RawSchemaRef("openapi-3", m.schemaUrl), Array(ServeTiers(m.tiers)), ServeAuth(m.auth)))
  }

  // ---- The round trip ---------------------------------------------------------------

  /** What a served intent reads as. */
  function RawOf(m: Manifest, verb: string): RawIntent {
    if verb !in m.metadata || m.metadata[verb] == IntentMetadata(Request, None) then Flat(verb)
    else Structured(verb, Some(m.metadata[verb].kind), m.metadata[verb].chunkSchemaUrl)
  }

  function RawsOf(m: Manifest, order: seq<string>): (r: seq<RawIntent>)
    ensures |r| == |order|
    ensures forall k :: 0 <= k < |order| ==> r[k] == RawOf(m, order[k])
  {
    seq(|order|, k requires 0 <= k < |order| => RawOf(m, order[k]))
  }

  /** A list whose members each read back reads back whole. */
  lemma {:induction false} DecodeAllServed<T>(items: seq<Value>, decode: Value -> Option<T>, ts: seq<T>)
    requires |items| == |ts|
    requires forall k :: 0 <= k < |items| ==> decode(items[k]) == Some(ts[k])
    ensures DecodeAll(items, decode) == Some(ts)
  {
    if items != [] {
      DecodeAllServed(items[1..], decode, ts[1..]);
      assert [ts[0]] + ts[1..] == ts;
    }
  }

  lemma DecodeServedIntents(m: Manifest, order: seq<string>)
    ensures DecodeIntents(Array(ServeIntents(m, order))) == Some(RawsOf(m, order))
  {
    forall k | 0 <= k < |order|
      ensures DecodeIntent(ServeIntents(m, order)[k]) == Some(RawsOf(m, order)[k])
    {
      assert ServeIntents(m, order)[k] == ServeIntent(m, order[k]);
    }
    DecodeAllServed(ServeIntents(m, order), DecodeIntent, RawsOf(m, order));
  }

  lemma DecodeServedTiers(tiers: seq<Tier>)
    ensures DecodeTiers(Array(ServeTiers(tiers))) == Some(tiers)
  {
    forall k | 0 <= k < |tiers|
      ensures DecodeTier(ServeTiers(tiers)[k]) == Some(tiers[k])
    {
      assert ServeTiers(tiers)[k] == String(TierText(tiers[k]));
    }
    DecodeAllServed(ServeTiers(tiers), DecodeTier, tiers);
  }

  lemma DecodeServedAuth(auth: AuthMethod)
    ensures DecodeAuth(ServeAuth(auth)) == Some(auth)
  {
    if auth.Oauth2? {
      DecodeAllServed(ServeStrings(auth.scopes), DecodeString, auth.scopes);
    }
  }

  function Reread(m: Manifest, order: seq<string>): RawManifest {
    RawManifest(
      Some(m.version), Some(m.id), Some(m.name), Some(m.category), Some(m.summary), Some(RawsOf(m, order)),
      Some(RawSchemaRef("openapi-3", m.schemaUrl)), None, [], None, Some(m.tiers), Some(m.auth))
  }

  ghost predicate HasTexts(o: Fields, d: Document) {
    && "ferridis_version" in o && o["ferridis_version"] == String(d.version)
    && "id" in o && o["id"] == String(d.id)
    && "name" in o && o["name"] == String(d.name)
    && "category" in o && o["category"] == String(d.category)
    && "summary" in o && o["summary"] == String(d.summary)
  }

  ghost predicate HasParts(o: Fields, d: Document) {
    && "intents" in o && o["intents"] == d.intents
    && "schema" in o && DecodeSchemaRef(o["schema"]) == Some(d.schema)
    && "tiers" in o && o["tiers"] == d.tiers
    && "auth" in o && o["auth"] == d.auth
    && "events" !in o && "event_channels" !in o && "endpoint_url" !in o
  }

  lemma DocumentTexts(d: Document)
    ensures HasTexts(ToJson(d).fields, d)
  {
  }

  lemma DocumentParts(d: Document)
    ensures HasParts(ToJson(d).fields, d)
  {
  }

  /** A document decodes to its fields, and nothing is read for the three it does not have. */
  lemma DecodeDocument(d: Document, intents: seq<RawIntent>, tiers: seq<Tier>, auth: AuthMethod)
    requires DecodeIntents(d.intents) == Some(intents) && DecodeTiers(d.tiers) == Some(tiers)
    requires DecodeAuth(d.auth) == Some(auth)
    ensures DecodeManifest(ToJson(d)) == Some(RawManifest(
      Some(d.version), Some(d.id), Some(d.name), Some(d.category), Some(d.summary), Some(intents),
      Some(d.schema), None, [], None, Some(tiers), Some(auth)))
  {
    DocumentTexts(d);
    DocumentParts(d);
    DecodeFields(ToJson(d).fields, d, intents, tiers, auth);
  }

  lemma DecodeFields(o: Fields, d: Document, intents: seq<RawIntent>, tiers: seq<Tier>, auth: AuthMethod)
    requires HasTexts(o, d) && HasParts(o, d)
    requires DecodeIntents(d.intents) == Some(intents) && DecodeTiers(d.tiers) == Some(tiers)
    requires DecodeAuth(d.auth) == Some(auth)
    ensures DecodeManifest(Object(o)) == Some(RawManifest(
      Some(d.version), Some(d.id), Some(d.name), Some(d.category), Some(d.summary), Some(intents),
      Some(d.schema), None, [], None, Some(tiers), Some(auth)))
  {
  }

  lemma DecodeServed(m: Manifest, order: seq<string>)
    ensures DecodeManifest(ServeManifest(m, order)) == Some(Reread(m, order))
  {
    DecodeServedIntents(m, order);
    DecodeServedTiers(m.tiers);
    DecodeServedAuth(m.auth);
    DecodeDocument(
      Document(m.version, m.id, m.name, m.category, m.summary, Array(ServeIntents(m, order)),
               RawSchemaRef("openapi-3", m.schemaUrl), Array(ServeTiers(m.tiers)), ServeAuth(m.auth)),
      RawsOf(m, order), m.tiers, m.auth);
  }

  /** What serving forgets. */
  function Forget(m: Manifest): Manifest {
    m.(eventsUrl := None, channels := [], endpointUrl := None)
  }

  lemma RawOfIsValid(urls: Urls.Parser, m: Manifest, verb: string)
    requires Valid(urls, m) && verb in m.intents
    ensures EntryValid(urls, RawOf(m, verb)) && MetadataOf(urls, RawOf(m, verb)) == m.metadata[verb]
    ensures RawOf(m, verb).verb == verb
  {
    assert MetadataValid(urls, m.metadata[verb]);
  }

  lemma {:induction false} VerbsOfIff(raws: seq<RawIntent>, v: string)
    ensures v in VerbsOf(raws) <==> exists k :: 0 <= k < |raws| && raws[k].verb == v
  {
    if raws != [] {
      VerbsOfIff(raws[1..], v);
      assert forall k :: 1 <= k < |raws| ==> raws[k] == raws[1..][k - 1];
    }
  }

  /** What is served for a manifest's intents is readable, entry by entry. */
  lemma RawsOfAreValid(urls: Urls.Parser, m: Manifest, order: seq<string>)
    requires Valid(urls, m) && Lists(order, m.intents)
    ensures EntriesValid(urls, RawsOf(m, order)) && DistinctVerbs(RawsOf(m, order))
    ensures forall k :: 0 <= k < |order| ==> MetadataOf(urls, RawOf(m, order[k])) == m.metadata[order[k]]
    ensures VerbsOf(RawsOf(m, order)) == m.intents
  {
    var raws := RawsOf(m, order);
    forall k | 0 <= k < |raws|
      ensures EntryValid(urls, raws[k]) && raws[k].verb == order[k]
      ensures MetadataOf(urls, raws[k]) == m.metadata[order[k]]
    {
      assert order[k] in order;
      RawOfIsValid(urls, m, order[k]);
    }
    forall v
      ensures v in VerbsOf(raws) <==> v in m.intents
    {
      VerbsOfIff(raws, v);
      if v in m.intents {
        var k: nat :| k < |order| && order[k] == v;
        assert raws[k].verb == v;
      }
    }
  }

  /** The intents read back into exactly the manifest's tables. */
  lemma RereadIntents(urls: Urls.Parser, m: Manifest, order: seq<string>)
    requires urls.Stable() && Valid(urls, m) && Lists(order, m.intents)
    ensures AddIntents(urls, EMPTY_TABLE, RawsOf(m, order)) == Ok(IntentTable(m.intents, m.metadata))
  {
    var raws := RawsOf(m, order);
    RawsOfAreValid(urls, m, order);
    AddIntentsIff(urls, EMPTY_TABLE, raws);
    AddIntentsValid(urls, EMPTY_TABLE, raws);
    var table := AddIntents(urls, EMPTY_TABLE, raws).value;
    assert {} + VerbsOf(raws) == m.intents;
    SameMetadata(urls, m, order, table);
  }

  lemma SameMetadata(urls: Urls.Parser, m: Manifest, order: seq<string>, table: IntentTable)
    requires Lists(order, m.intents) && m.metadata.Keys == m.intents == table.intents == table.metadata.Keys
    requires EntriesValid(urls, RawsOf(m, order)) && Holds(urls, EMPTY_TABLE, RawsOf(m, order), table)
    requires forall k :: 0 <= k < |order| ==> MetadataOf(urls, RawOf(m, order[k])) == m.metadata[order[k]]
    ensures table.metadata == m.metadata
  {
    forall v | v in m.metadata
      ensures table.metadata[v] == m.metadata[v]
    {
      var k: nat :| k < |order| && order[k] == v;
      assert RawsOf(m, order)[k].verb == v;
    }
  }

  /**
   Reading what is served for any validated manifest succeeds, and gives that manifest
   without its event URL, event channels and endpoint URL.
   */
  lemma ServeRoundTrip(urls: Urls.Parser, raw: RawManifest, order: seq<string>)
    requires urls.Stable() && Validated(urls, raw).Ok?
    requires Lists(order, Validated(urls, raw).value.intents)
    ensures Parse(urls, ServeManifest(Validated(urls, raw).value, order)) == Ok(Forget(Validated(urls, raw).value))
  {
    var m := Validated(urls, raw).value;
    ValidatedIsValid(urls, raw);
    DecodeServed(m, order);
    RereadIntents(urls, m, order);
    RereadValid(urls, m, order);
  }

  lemma RereadValid(urls: Urls.Parser, m: Manifest, order: seq<string>)
    requires Valid(urls, m) && Lists(order, m.intents)
    requires AddIntents(urls, EMPTY_TABLE, RawsOf(m, order)) == Ok(IntentTable(m.intents, m.metadata))
    ensures Validated(urls, Reread(m, order)) == Ok(Forget(m))
  {
    var v :| v in m.intents;
    assert v in order;
    assert RawsOf(m, order) != [];
  }

  /** A manifest survives being served unchanged exactly when it declares none of the dropped fields. */
  lemma ServedUnchangedIff(urls: Urls.Parser, raw: RawManifest, order: seq<string>)
    requires urls.Stable() && Validated(urls, raw).Ok?
    requires Lists(order, Validated(urls, raw).value.intents)
    ensures Parse(urls, ServeManifest(Validated(urls, raw).value, order)) == Validated(urls, raw)
      <==> raw.events.None? && raw.endpointUrl.None? && raw.channels == []
  {
    ServeRoundTrip(urls, raw, order);
    ForgetIff(urls, raw);
  }

  lemma ForgetIff(urls: Urls.Parser, raw: RawManifest)
    requires Validated(urls, raw).Ok?
    ensures Forget(Validated(urls, raw).value) == Validated(urls, raw).value
      <==> raw.events.None? && raw.endpointUrl.None? && raw.channels == []
  {
    DroppedIff(urls, raw, AddIntents(urls, EMPTY_TABLE, raw.intents.value).value);
  }

  lemma DroppedIff(urls: Urls.Parser, raw: RawManifest, table: IntentTable)
    requires raw.version.Some? && raw.id.Some? && raw.name.Some? && raw.category.Some? && raw.summary.Some?
    requires ValidatedUrls(urls, raw, table).Ok?
    ensures var m := ValidatedUrls(urls, raw, table).value;
      && (m.eventsUrl.None? <==> raw.events.None?)
      && (m.endpointUrl.None? <==> raw.endpointUrl.None?)
      && (m.channels == [] <==> raw.channels == [])
  {
    AddChannelsIff(urls, ChannelList([], {}), raw.channels);
    assert |KeptChannels(urls, raw.channels)| == |raw.channels|;
  }
}
