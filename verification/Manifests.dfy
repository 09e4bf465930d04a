/**
 Capability manifests: what `ferridis-core/src/manifest.rs` reads from JSON and what it
 insists on. JSON is read at the level of values.
 */
module Manifests {
  import opened Wrappers
  import IntentVerbs
  import Urls
  import Utf8

  datatype IntentKind = Request | Stream

  datatype IntentMetadata = IntentMetadata(kind: IntentKind, chunkSchemaUrl: Option<string>)

  datatype Transport = Sse | WebSocket

  datatype Tier = Native | Browser | Vision

  datatype AuthMethod = NoAuth | Oauth2(scopes: seq<string>) | ApiKey(header: string)

  datatype EventChannel = EventChannel(name: string, chunkSchemaUrl: Option<string>, transport: Transport)

  datatype Manifest = Manifest(
    version: string, id: string, name: string, category: string, summary: string,
    intents: set<string>, metadata: map<string, IntentMetadata>, schemaUrl: string,
    eventsUrl: Option<string>, channels: seq<EventChannel>, endpointUrl: Option<string>,
    tiers: seq<Tier>, auth: AuthMethod)

  datatype RawIntent =
    | Flat(verb: string)
    | Structured(verb: string, kind: Option<IntentKind>, chunkSchemaUrl: Option<string>)

  datatype RawSchemaRef = RawSchemaRef(ty: string, url: string)

  datatype RawManifest = RawManifest(
    version: Option<string>, id: Option<string>, name: Option<string>, category: Option<string>,
    summary: Option<string>, intents: Option<seq<RawIntent>>, schema: Option<RawSchemaRef>,
    events: Option<RawSchemaRef>, channels: seq<EventChannel>, endpointUrl: Option<string>,
    tiers: Option<seq<Tier>>, auth: Option<AuthMethod>)

  datatype ManifestError =
    | Malformed
    | MissingField(field: string)
    | BadCategory
    | SummaryTooLong
    | NoIntents
    | BadVerb(error: IntentVerbs.VerbError)
    | DuplicateIntent(verb: string)
    | StreamWithoutChunkSchema(verb: string)
    | BadUrl
    | DuplicateChannel(name: string)

  const MAX_SUMMARY_BYTES := 800

  // ---- Fields -----------------------------------------------------------------------

  predicate CategoryChar(c: char) {
    IntentVerbs.IsLower(c) || c == '-'
  }

  function ParseCategory(s: string): Result<string, ManifestError> {
    if s == "" then Err(MissingField("category"))
    else if exists k :: 0 <= k < |s| && !CategoryChar(s[k]) then Err(BadCategory)
    else Ok(s)
  }

  function ParseSummary(s: string): Result<string, ManifestError> {
    if s == "" then Err(MissingField("summary"))
    else if |Utf8.Encode(s)| > MAX_SUMMARY_BYTES then Err(SummaryTooLong)
    else Ok(s)
  }

  /** A category is one or more lower-case letters and dashes; a summary has 1 to 800 bytes. */
  lemma FieldsIff(category: string, summary: string)
    ensures ParseCategory(category) ==
      if category == "" then Err(MissingField("category"))
      else if forall c :: c in category ==> 'a' <= c <= 'z' || c == '-' then Ok(category)
      else Err(BadCategory)
    ensures ParseSummary(summary).Ok? <==> summary != "" && |Utf8.Encode(summary)| <= 800
    ensures ParseSummary(summary) in {Ok(summary), Err(MissingField("summary")), Err(SummaryTooLong)}
    ensures ParseSummary(summary) == Err(MissingField("summary")) <==> summary == ""
  {
    if forall c :: c in category ==> 'a' <= c <= 'z' || c == '-' {
      assert forall k :: 0 <= k < |category| ==> category[k] in category;
    }
  }

  function ParseUrl(urls: Urls.Parser, s: string): Result<string, ManifestError> {
    match urls.parse(s)
    case Some(url) => Ok(url)
    case None => Err(BadUrl)
  }

  function ParseOptionalUrl(urls: Urls.Parser, s: Option<string>): Result<Option<string>, ManifestError> {
    if s.None? then Ok(None)
    else match ParseUrl(urls, s.value)
      case Ok(url) => Ok(Some(url))
      case Err(e) => Err(e)
  }

  // ---- Intents ----------------------------------------------------------------------

  datatype IntentTable = IntentTable(intents: set<string>, metadata: map<string, IntentMetadata>)

  const EMPTY_TABLE := IntentTable({}, map[])

  /** The kind an entry asks for; a flat entry and a missing kind both mean a plain request. */
  function KindOf(raw: RawIntent): IntentKind {
    if raw.Structured? && raw.kind.Some? then raw.kind.value else Request
  }

  function ChunkOf(raw: RawIntent): Option<string> {
    if raw.Structured? then raw.chunkSchemaUrl else None
  }

  function AddIntent(urls: Urls.Parser, table: IntentTable, raw: RawIntent): Result<IntentTable, ManifestError> {
    var verb := IntentVerbs.Parse(raw.verb);
    if verb.Err? then Err(BadVerb(verb.error))
    else if raw.verb in table.intents then Err(DuplicateIntent(raw.verb))
    else if KindOf(raw).Stream? && ChunkOf(raw).None? then Err(StreamWithoutChunkSchema(raw.verb))
    else
      match ParseOptionalUrl(urls, ChunkOf(raw))
      case Err(e) => Err(e)
      case Ok(url) =>
        Ok(IntentTable(table.intents + {raw.verb}, table.metadata[raw.verb := IntentMetadata(KindOf(raw), url)]))
  }

  function AddIntents(urls: Urls.Parser, table: IntentTable, raws: seq<RawIntent>): Result<IntentTable, ManifestError>
    decreases |raws|
  {
    if raws == [] then Ok(table)
    else
      var next := AddIntent(urls, table, raws[0]);
      if next.Err? then next else AddIntents(urls, next.value, raws[1..])
  }

  /** What an entry must be on its own. */
  predicate EntryValid(urls: Urls.Parser, raw: RawIntent) {
    && IntentVerbs.Parse(raw.verb).Ok?
    && (KindOf(raw).Stream? ==> ChunkOf(raw).Some?)
    && ParseOptionalUrl(urls, ChunkOf(raw)).Ok?
  }

  function MetadataOf(urls: Urls.Parser, raw: RawIntent): IntentMetadata
    requires EntryValid(urls, raw)
  {
    IntentMetadata(KindOf(raw), ParseOptionalUrl(urls, ChunkOf(raw)).value)
  }

  ghost predicate DistinctVerbs(raws: seq<RawIntent>) {
    forall j, k :: 0 <= j < k < |raws| ==> raws[j].verb != raws[k].verb
  }

  ghost predicate EntriesValid(urls: Urls.Parser, raws: seq<RawIntent>) {
    forall k :: 0 <= k < |raws| ==> EntryValid(urls, raws[k])
  }

  ghost predicate NoneIn(raws: seq<RawIntent>, verbs: set<string>) {
    forall k :: 0 <= k < |raws| ==> raws[k].verb !in verbs
  }

  function VerbsOf(raws: seq<RawIntent>): set<string> {
    if raws == [] then {} else {raws[0].verb} + VerbsOf(raws[1..])
  }

  /** Every entry has its own row, and the rows that were there are kept. */
  ghost predicate Holds(urls: Urls.Parser, table: IntentTable, raws: seq<RawIntent>, after: IntentTable)
    requires EntriesValid(urls, raws)
  {
    && (forall k :: 0 <= k < |raws| ==>
         raws[k].verb in after.metadata && after.metadata[raws[k].verb] == MetadataOf(urls, raws[k]))
    && (forall v :: v in table.intents && v in table.metadata ==>
         v in after.metadata && after.metadata[v] == table.metadata[v])
  }

  function With(table: IntentTable, verb: string, md: IntentMetadata): IntentTable {
    IntentTable(table.intents + {verb}, table.metadata[verb := md])
  }

  lemma AddIntentIff(urls: Urls.Parser, table: IntentTable, raw: RawIntent)
    ensures AddIntent(urls, table, raw).Ok? <==> EntryValid(urls, raw) && raw.verb !in table.intents
    ensures AddIntent(urls, table, raw).Ok? ==> AddIntent(urls, table, raw).value == With(table, raw.verb, MetadataOf(urls, raw))
  {
  }

  /** Reading the intents succeeds exactly when every entry is valid and no verb repeats. */
  lemma {:induction false} AddIntentsIff(urls: Urls.Parser, table: IntentTable, raws: seq<RawIntent>)
    ensures AddIntents(urls, table, raws).Ok? <==>
      EntriesValid(urls, raws) && DistinctVerbs(raws) && NoneIn(raws, table.intents)
    ensures AddIntents(urls, table, raws).Ok? ==>
      var after := AddIntents(urls, table, raws).value;
      after.intents == table.intents + VerbsOf(raws) && Holds(urls, table, raws, after)
    decreases |raws|
  {
    if raws != [] {
      var raw, rest := raws[0], raws[1..];
      assert raws == [raw] + rest;
      EntriesCons(urls, raw, rest, table.intents);
      AddIntentIff(urls, table, raw);
      if AddIntent(urls, table, raw).Ok? {
        var next := AddIntent(urls, table, raw).value;
        AddIntentsIff(urls, next, rest);
        if AddIntents(urls, next, rest).Ok? {
          HoldsCons(urls, table, raw, rest, AddIntents(urls, next, rest).value);
        }
      }
    }
  }

  /** Every refusal of one entry: what is wrong decides the error, the earliest check first. */
  lemma EntryFaults(urls: Urls.Parser, table: IntentTable, raw: RawIntent)
    ensures var r, verb := AddIntent(urls, table, raw), IntentVerbs.Parse(raw.verb);
      var chunk := if raw.Structured? then raw.chunkSchemaUrl else None;
      && (verb.Err? ==> r == Err(BadVerb(verb.error)))
      && (verb.Ok? && raw.verb in table.intents ==> r == Err(DuplicateIntent(raw.verb)))
      && (verb.Ok? && raw.verb !in table.intents ==>
           if raw.Structured? && raw.kind == Some(Stream) && chunk.None? then
             r == Err(StreamWithoutChunkSchema(raw.verb))
           else
             r.Err? <==> chunk.Some? && urls.parse(chunk.value).None?)
      && (r.Err? && r.error !in {DuplicateIntent(raw.verb), StreamWithoutChunkSchema(raw.verb)} && verb.Ok? ==>
           r.error == BadUrl)
  {
  }

  /** The first entry that is refused decides the error. */
  lemma {:induction false} FirstFaultyEntry(urls: Urls.Parser, table: IntentTable, good: seq<RawIntent>,
                                            bad: RawIntent, more: seq<RawIntent>)
    requires AddIntents(urls, table, good).Ok?
    requires AddIntent(urls, AddIntents(urls, table, good).value, bad).Err?
    ensures AddIntents(urls, table, good + [bad] + more)
         == AddIntent(urls, AddIntents(urls, table, good).value, bad)
    decreases |good|
  {
    if good == [] {
      assert good + [bad] + more == [bad] + more;
    } else {
      assert (good + [bad] + more)[0] == good[0] && (good + [bad] + more)[1..] == good[1..] + [bad] + more;
      FirstFaultyEntry(urls, AddIntent(urls, table, good[0]).value, good[1..], bad, more);
    }
  }

  lemma EntriesCons(urls: Urls.Parser, raw: RawIntent, rest: seq<RawIntent>, verbs: set<string>)
    ensures EntriesValid(urls, [raw] + rest) <==> EntryValid(urls, raw) && EntriesValid(urls, rest)
    ensures DistinctVerbs([raw] + rest) && NoneIn([raw] + rest, verbs)
      <==> raw.verb !in verbs && DistinctVerbs(rest) && NoneIn(rest, verbs + {raw.verb})
  {
    var raws := [raw] + rest;
    assert raws[0] == raw && forall k :: 0 <= k < |rest| ==> raws[k + 1] == rest[k];
  }

  lemma HoldsCons(urls: Urls.Parser, table: IntentTable, raw: RawIntent, rest: seq<RawIntent>, after: IntentTable)
    requires EntryValid(urls, raw) && EntriesValid(urls, rest) && EntriesValid(urls, [raw] + rest)
    requires raw.verb !in table.intents
    requires Holds(urls, With(table, raw.verb, MetadataOf(urls, raw)), rest, after)
    ensures Holds(urls, table, [raw] + rest, after)
  {
    var raws := [raw] + rest;
    forall k | 0 <= k < |raws|
      ensures raws[k].verb in after.metadata && after.metadata[raws[k].verb] == MetadataOf(urls, raws[k])
    {
      if k > 0 {
        assert raws[k] == rest[k - 1];
      }
    }
  }

  // ---- Event channels ---------------------------------------------------------------

  datatype ChannelList = ChannelList(channels: seq<EventChannel>, seen: set<string>)

  function AddChannel(urls: Urls.Parser, list: ChannelList, raw: EventChannel): Result<ChannelList, ManifestError> {
    var name := IntentVerbs.Parse(raw.name);
    if name.Err? then Err(BadVerb(name.error))
    else
      match ParseOptionalUrl(urls, raw.chunkSchemaUrl)
      case Err(e) => Err(e)
      case Ok(url) =>
        if raw.name in list.seen then Err(DuplicateChannel(raw.name))
        else Ok(ChannelList(list.channels + [EventChannel(raw.name, url, raw.transport)], list.seen + {raw.name}))
  }

  function AddChannels(urls: Urls.Parser, list: ChannelList, raws: seq<EventChannel>): Result<ChannelList, ManifestError>
    decreases |raws|
  {
    if raws == [] then Ok(list)
    else
      var next := AddChannel(urls, list, raws[0]);
      if next.Err? then next else AddChannels(urls, next.value, raws[1..])
  }

  predicate ChannelValid(urls: Urls.Parser, raw: EventChannel) {
    IntentVerbs.Parse(raw.name).Ok? && ParseOptionalUrl(urls, raw.chunkSchemaUrl).Ok?
  }

  ghost predicate ChannelsValid(urls: Urls.Parser, raws: seq<EventChannel>, seen: set<string>) {
    && (forall k :: 0 <= k < |raws| ==> ChannelValid(urls, raws[k]) && raws[k].name !in seen)
    && forall j, k :: 0 <= j < k < |raws| ==> raws[j].name != raws[k].name
  }

  lemma ChannelsValidCons(urls: Urls.Parser, raw: EventChannel, rest: seq<EventChannel>, seen: set<string>)
    ensures ChannelsValid(urls, [raw] + rest, seen)
      <==> ChannelValid(urls, raw) && raw.name !in seen && ChannelsValid(urls, rest, seen + {raw.name})
  {
    var raws := [raw] + rest;
    assert raws[0] == raw && forall k :: 0 <= k < |rest| ==> raws[k + 1] == rest[k];
  }

  /** A valid channel as the manifest keeps it: its URL is parsed, its name and transport stay. */
  function KeptChannel(urls: Urls.Parser, raw: EventChannel): EventChannel {
    var url := ParseOptionalUrl(urls, raw.chunkSchemaUrl);
    EventChannel(raw.name, if url.Ok? then url.value else None, raw.transport)
  }

  function KeptChannels(urls: Urls.Parser, raws: seq<EventChannel>): (kept: seq<EventChannel>)
    ensures |kept| == |raws|
  {
    seq(|raws|, k requires 0 <= k < |raws| => KeptChannel(urls, raws[k]))
  }

  /** Reading the channels succeeds exactly when every one is valid and no name repeats, and keeps each, in order. */
  lemma {:induction false} AddChannelsIff(urls: Urls.Parser, list: ChannelList, raws: seq<EventChannel>)
    ensures AddChannels(urls, list, raws).Ok? <==> ChannelsValid(urls, raws, list.seen)
    ensures AddChannels(urls, list, raws).Ok? ==>
      AddChannels(urls, list, raws).value.channels == list.channels + KeptChannels(urls, raws)
    decreases |raws|
  {
    if raws == [] {
      assert list.channels + [] == list.channels;
    } else {
      var raw, rest := raws[0], raws[1..];
      assert raws == [raw] + rest;
      ChannelsValidCons(urls, raw, rest, list.seen);
      var next := AddChannel(urls, list, raw);
      if next.Ok? {
        AddChannelsIff(urls, next.value, rest);
        assert next.value.channels == list.channels + [KeptChannel(urls, raw)];
        assert KeptChannels(urls, raws) == [KeptChannel(urls, raw)] + KeptChannels(urls, rest);
      }
    }
  }

  /** The same for event channels. */
  lemma ChannelFaults(urls: Urls.Parser, list: ChannelList, raw: EventChannel)
    ensures var r, verb := AddChannel(urls, list, raw), IntentVerbs.Parse(raw.name);
      && (verb.Err? ==> r == Err(BadVerb(verb.error)))
      && (verb.Ok? ==>
           if raw.chunkSchemaUrl.Some? && urls.parse(raw.chunkSchemaUrl.value).None? then r == Err(BadUrl)
           else if raw.name in list.seen then r == Err(DuplicateChannel(raw.name))
           else r.Ok?)
  {
  }

  lemma {:induction false} FirstFaultyChannel(urls: Urls.Parser, list: ChannelList, good: seq<EventChannel>,
                                              bad: EventChannel, more: seq<EventChannel>)
    requires AddChannels(urls, list, good).Ok?
    requires AddChannel(urls, AddChannels(urls, list, good).value, bad).Err?
    ensures AddChannels(urls, list, good + [bad] + more)
         == AddChannel(urls, AddChannels(urls, list, good).value, bad)
    decreases |good|
  {
    if good == [] {
      assert good + [bad] + more == [bad] + more;
    } else {
      assert (good + [bad] + more)[0] == good[0] && (good + [bad] + more)[1..] == good[1..] + [bad] + more;
      FirstFaultyChannel(urls, AddChannel(urls, list, good[0]).value, good[1..], bad, more);
    }
  }

  // ---- Validation -------------------------------------------------------------------

  function Validated(urls: Urls.Parser, raw: RawManifest): Result<Manifest, ManifestError> {
    if raw.version.None? then Err(MissingField("ferridis_version"))
    else if raw.id.None? then Err(MissingField("id"))
    else if raw.name.None? then Err(MissingField("name"))
    else if raw.category.None? then Err(MissingField("category"))
    else if ParseCategory(raw.category.value).Err? then Err(ParseCategory(raw.category.value).error)
    else if raw.summary.None? then Err(MissingField("summary"))
    else if ParseSummary(raw.summary.value).Err? then Err(ParseSummary(raw.summary.value).error)
    else if raw.intents.None? then Err(MissingField("intents"))
    else if raw.intents.value == [] then Err(NoIntents)
    else
      var table := AddIntents(urls, EMPTY_TABLE, raw.intents.value);
      if table.Err? then Err(table.error) else ValidatedUrls(urls, raw, table.value)
  }

  function ValidatedUrls(urls: Urls.Parser, raw: RawManifest, table: IntentTable): Result<Manifest, ManifestError>
    requires raw.version.Some? && raw.id.Some? && raw.name.Some? && raw.category.Some? && raw.summary.Some?
  {
    if raw.schema.None? then Err(MissingField("schema"))
    else
      var schemaUrl := ParseUrl(urls, raw.schema.value.url);
      var eventsUrl := ParseOptionalUrl(urls, if raw.events.Some? then Some(raw.events.value.url) else None);
      var endpointUrl := ParseOptionalUrl(urls, raw.endpointUrl);
      var channels := AddChannels(urls, ChannelList([], {}), raw.channels);
      if schemaUrl.Err? then Err(schemaUrl.error)
      else if eventsUrl.Err? then Err(eventsUrl.error)
      else if endpointUrl.Err? then Err(endpointUrl.error)
      else if channels.Err? then Err(channels.error)
      else if raw.tiers.None? || raw.tiers.value == [] then Err(MissingField("tiers"))
      else if raw.auth.None? then Err(MissingField("auth"))
      else
        Ok(Manifest(
             raw.version.value, raw.id.value, raw.name.value, raw.category.value, raw.summary.value,
             table.intents, table.metadata, schemaUrl.value, eventsUrl.value, channels.value.channels,
             endpointUrl.value, raw.tiers.value, raw.auth.value))
  }

  method ReadIntents(urls: Urls.Parser, raws: seq<RawIntent>) returns (r: Result<IntentTable, ManifestError>)
    ensures r == AddIntents(urls, EMPTY_TABLE, raws)
  {
    var intents: set<string> := {};
    var metadata: map<string, IntentMetadata> := map[];
    for k := 0 to |raws|
      invariant AddIntents(urls, EMPTY_TABLE, raws) == AddIntents(urls, IntentTable(intents, metadata), raws[k..])
    {
      assert raws[k..][1..] == raws[k + 1..];
      var raw := raws[k];
      var verb := IntentVerbs.Parse(raw.verb);
      if verb.Err? {
        return Err(BadVerb(verb.error));
      }
      if raw.verb in intents {
        return Err(DuplicateIntent(raw.verb));
      }
      if KindOf(raw).Stream? && ChunkOf(raw).None? {
        return Err(StreamWithoutChunkSchema(raw.verb));
      }
      var url := ParseOptionalUrl(urls, ChunkOf(raw));
      if url.Err? {
        return Err(url.error);
      }
      intents := intents + {raw.verb};
      metadata := metadata[raw.verb := IntentMetadata(KindOf(raw), url.value)];
    }
    return Ok(IntentTable(intents, metadata));
  }

  method ReadChannels(urls: Urls.Parser, raws: seq<EventChannel>) returns (r: Result<seq<EventChannel>, ManifestError>)
    ensures var all := AddChannels(urls, ChannelList([], {}), raws);
      r == if all.Ok? then Ok(all.value.channels) else Err(all.error)
  {
    var channels: seq<EventChannel> := [];
    var seen: set<string> := {};
    for k := 0 to |raws|
      invariant AddChannels(urls, ChannelList([], {}), raws) == AddChannels(urls, ChannelList(channels, seen), raws[k..])
    {
      assert raws[k..][1..] == raws[k + 1..];
      var raw := raws[k];
      var name := IntentVerbs.Parse(raw.name);
      if name.Err? {
        return Err(BadVerb(name.error));
      }
      var url := ParseOptionalUrl(urls, raw.chunkSchemaUrl);
      if url.Err? {
        return Err(url.error);
      }
      if raw.name in seen {
        return Err(DuplicateChannel(raw.name));
      }
      seen := seen + {raw.name};
      channels := channels + [EventChannel(raw.name, url.value, raw.transport)];
    }
    return Ok(channels);
  }

  method Validate(urls: Urls.Parser, raw: RawManifest) returns (r: Result<Manifest, ManifestError>)
    ensures r == Validated(urls, raw)
  {
    if raw.version.None? { return Err(MissingField("ferridis_version")); }
    if raw.id.None? { return Err(MissingField("id")); }
    if raw.name.None? { return Err(MissingField("name")); }
    if raw.category.None? { return Err(MissingField("category")); }
    var category := ParseCategory(raw.category.value);
    if category.Err? { return Err(category.error); }
    if raw.summary.None? { return Err(MissingField("summary")); }
    var summary := ParseSummary(raw.summary.value);
    if summary.Err? { return Err(summary.error); }
    if raw.intents.None? { return Err(MissingField("intents")); }
    if raw.intents.value == [] { return Err(NoIntents); }
    var table := ReadIntents(urls, raw.intents.value);
    if table.Err? { return Err(table.error); }
    if raw.schema.None? { return Err(MissingField("schema")); }
    var schemaUrl := ParseUrl(urls, raw.schema.value.url);
    if schemaUrl.Err? { return Err(schemaUrl.error); }
    var eventsUrl := ParseOptionalUrl(urls, if raw.events.Some? then Some(raw.events.value.url) else None);
    if eventsUrl.Err? { return Err(eventsUrl.error); }
    var endpointUrl := ParseOptionalUrl(urls, raw.endpointUrl);
    if endpointUrl.Err? { return Err(endpointUrl.error); }
    var channels := ReadChannels(urls, raw.channels);
    if channels.Err? { return Err(channels.error); }
    if raw.tiers.None? || raw.tiers.value == [] { return Err(MissingField("tiers")); }
    if raw.auth.None? { return Err(MissingField("auth")); }
    return Ok(Manifest(
      raw.version.value, raw.id.value, raw.name.value, category.value, summary.value,
      table.value.intents, table.value.metadata, schemaUrl.value, eventsUrl.value, channels.value,
      endpointUrl.value, raw.tiers.value, raw.auth.value));
  }

  // ---- What every validated manifest is ---------------------------------------------

  predicate MetadataValid(urls: Urls.Parser, md: IntentMetadata) {
    && (md.kind.Stream? ==> md.chunkSchemaUrl.Some?)
    && (md.chunkSchemaUrl.Some? ==> urls.parse(md.chunkSchemaUrl.value) == md.chunkSchemaUrl)
  }

  ghost predicate TableValid(urls: Urls.Parser, table: IntentTable) {
    && table.metadata.Keys == table.intents
    && (forall v :: v in table.intents ==> IntentVerbs.Parse(v).Ok?)
    && forall v :: v in table.metadata ==> MetadataValid(urls, table.metadata[v])
  }

  ghost predicate Valid(urls: Urls.Parser, m: Manifest) {
    && ParseCategory(m.category).Ok? && ParseSummary(m.summary).Ok?
    && m.intents != {} && TableValid(urls, IntentTable(m.intents, m.metadata))
    && urls.parse(m.schemaUrl) == Some(m.schemaUrl)
    && m.tiers != []
  }

  lemma AddIntentValid(urls: Urls.Parser, table: IntentTable, raw: RawIntent)
    requires urls.Stable() && TableValid(urls, table) && AddIntent(urls, table, raw).Ok?
    ensures TableValid(urls, AddIntent(urls, table, raw).value)
  {
  }

  lemma {:induction false} AddIntentsValid(urls: Urls.Parser, table: IntentTable, raws: seq<RawIntent>)
    requires urls.Stable() && TableValid(urls, table) && AddIntents(urls, table, raws).Ok?
    ensures var after := AddIntents(urls, table, raws).value;
      TableValid(urls, after) && table.intents <= after.intents && (raws != [] ==> after.intents != {})
    decreases |raws|
  {
    if raws != [] {
      AddIntentValid(urls, table, raws[0]);
      AddIntentsValid(urls, AddIntent(urls, table, raws[0]).value, raws[1..]);
      assert raws[0].verb in AddIntent(urls, table, raws[0]).value.intents;
    }
  }

  lemma ValidatedIsValid(urls: Urls.Parser, raw: RawManifest)
    requires urls.Stable() && Validated(urls, raw).Ok?
    ensures Valid(urls, Validated(urls, raw).value)
  {
    AddIntentsValid(urls, EMPTY_TABLE, raw.intents.value);
  }

  /** The fields that every manifest must have. */
  predicate Complete(raw: RawManifest) {
    && raw.version.Some? && raw.id.Some? && raw.name.Some? && raw.category.Some? && raw.summary.Some?
    && raw.intents.Some? && raw.schema.Some? && raw.tiers.Some? && raw.auth.Some?
  }

  ghost predicate HeadValid(urls: Urls.Parser, raw: RawManifest)
    requires Complete(raw)
  {
    && ParseCategory(raw.category.value).Ok? && ParseSummary(raw.summary.value).Ok?
    && raw.intents.value != [] && EntriesValid(urls, raw.intents.value) && DistinctVerbs(raw.intents.value)
  }

  ghost predicate TailValid(urls: Urls.Parser, raw: RawManifest)
    requires raw.schema.Some? && raw.tiers.Some? && raw.auth.Some?
  {
    && ParseUrl(urls, raw.schema.value.url).Ok?
    && (raw.events.Some? ==> ParseUrl(urls, raw.events.value.url).Ok?)
    && (raw.endpointUrl.Some? ==> ParseUrl(urls, raw.endpointUrl.value).Ok?)
    && ChannelsValid(urls, raw.channels, {})
    && raw.tiers.value != []
  }

  lemma ValidatedUrlsIff(urls: Urls.Parser, raw: RawManifest, table: IntentTable)
    requires raw.version.Some? && raw.id.Some? && raw.name.Some? && raw.category.Some? && raw.summary.Some?
    ensures ValidatedUrls(urls, raw, table).Ok? <==>
      raw.schema.Some? && raw.tiers.Some? && raw.auth.Some? && TailValid(urls, raw)
  {
    AddChannelsIff(urls, ChannelList([], {}), raw.channels);
  }

  /** A manifest is accepted exactly when it is complete and every field is valid on its own. */
  lemma ValidatedIff(urls: Urls.Parser, raw: RawManifest)
    ensures Validated(urls, raw).Ok? <==> Complete(raw) && HeadValid(urls, raw) && TailValid(urls, raw)
  {
    if raw.version.Some? && raw.id.Some? && raw.name.Some? && raw.category.Some? && raw.summary.Some?
       && raw.intents.Some? {
      var table := AddIntents(urls, EMPTY_TABLE, raw.intents.value);
      AddIntentsIff(urls, EMPTY_TABLE, raw.intents.value);
      if table.Ok? {
        ValidatedUrlsIff(urls, raw, table.value);
      }
    }
  }

  // ---- Which error, and which manifest ----------------------------------------------

  function Absent<T>(field: Option<T>, name: string): Option<ManifestError> {
    if field.None? then Some(MissingField(name)) else None
  }

  function ErrorOf<T>(r: Result<T, ManifestError>): Option<ManifestError> {
    if r.Err? then Some(r.error) else None
  }

  function BadLink(urls: Urls.Parser, url: Option<string>): Option<ManifestError> {
    if url.Some? && urls.parse(url.value).None? then Some(BadUrl) else None
  }

  /** What can be wrong with the fields up to the intents, each on its own, in the order of reporting. */
  function HeadFaults(urls: Urls.Parser, raw: RawManifest): seq<Option<ManifestError>> {
    [ Absent(raw.version, "ferridis_version"),
      Absent(raw.id, "id"),
      Absent(raw.name, "name"),
      Absent(raw.category, "category"),
      if raw.category.Some? then ErrorOf(ParseCategory(raw.category.value)) else None,
      Absent(raw.summary, "summary"),
      if raw.summary.Some? then ErrorOf(ParseSummary(raw.summary.value)) else None,
      Absent(raw.intents, "intents"),
      if raw.intents == Some([]) then Some(NoIntents) else None,
      if raw.intents.Some? then ErrorOf(AddIntents(urls, EMPTY_TABLE, raw.intents.value)) else None ]
  }

  /** The same for the other fields. */
  function TailFaults(urls: Urls.Parser, raw: RawManifest): seq<Option<ManifestError>> {
    [ Absent(raw.schema, "schema"),
      if raw.schema.Some? then BadLink(urls, Some(raw.schema.value.url)) else None,
      if raw.events.Some? then BadLink(urls, Some(raw.events.value.url)) else None,
      BadLink(urls, raw.endpointUrl),
      ErrorOf(AddChannels(urls, ChannelList([], {}), raw.channels)),
      Absent(raw.tiers, "tiers"),
      if raw.tiers == Some([]) then Some(MissingField("tiers")) else None,
      Absent(raw.auth, "auth") ]
  }

  ghost predicate IsFirst(faults: seq<Option<ManifestError>>, k: nat) {
    && k <= |faults| && (k < |faults| ==> faults[k].Some?)
    && forall j :: 0 <= j < k ==> faults[j].None?
  }

  lemma HeadFaultIsReported(urls: Urls.Parser, raw: RawManifest, k: nat)
    requires IsFirst(HeadFaults(urls, raw), k) && k < 10
    ensures Validated(urls, raw) == Err(HeadFaults(urls, raw)[k].value)
  {
    // Names every fault, so that each can be looked at.
    var f := HeadFaults(urls, raw);
    assert f == [f[0], f[1], f[2], f[3], f[4], f[5], f[6], f[7], f[8], f[9]];
  }

  lemma NoHeadFault(urls: Urls.Parser, raw: RawManifest)
    requires IsFirst(HeadFaults(urls, raw), 10)
    ensures raw.version.Some? && raw.id.Some? && raw.name.Some? && raw.category.Some? && raw.summary.Some?
    ensures raw.intents.Some? && AddIntents(urls, EMPTY_TABLE, raw.intents.value).Ok?
    ensures Validated(urls, raw) == ValidatedUrls(urls, raw, AddIntents(urls, EMPTY_TABLE, raw.intents.value).value)
  {
    var f := HeadFaults(urls, raw);
    assert f == [f[0], f[1], f[2], f[3], f[4], f[5], f[6], f[7], f[8], f[9]];
  }

  lemma TailFaultIsReported(urls: Urls.Parser, raw: RawManifest, table: IntentTable, k: nat)
    requires raw.version.Some? && raw.id.Some? && raw.name.Some? && raw.category.Some? && raw.summary.Some?
    requires IsFirst(TailFaults(urls, raw), k)
    ensures ErrorOf(ValidatedUrls(urls, raw, table)) == if k < 8 then TailFaults(urls, raw)[k] else None
  {
    var f := TailFaults(urls, raw);
    assert f == [f[0], f[1], f[2], f[3], f[4], f[5], f[6], f[7]];
  }

  function Faults(urls: Urls.Parser, raw: RawManifest): seq<Option<ManifestError>> {
    HeadFaults(urls, raw) + TailFaults(urls, raw)
  }

  /** A manifest is refused with the first of its faults, and accepted when it has none. */
  lemma FirstFaultIsReported(urls: Urls.Parser, raw: RawManifest, k: nat)
    requires IsFirst(Faults(urls, raw), k)
    ensures ErrorOf(Validated(urls, raw)) == if k < |Faults(urls, raw)| then Faults(urls, raw)[k] else None
  {
    var head, tail, all := HeadFaults(urls, raw), TailFaults(urls, raw), Faults(urls, raw);
    assert forall j :: 0 <= j < 10 ==> all[j] == head[j];
    assert forall j :: 0 <= j < 8 ==> tail[j] == all[j + 10];
    if k < 10 {
      HeadFaultIsReported(urls, raw, k);
    } else {
      NoHeadFault(urls, raw);
      TailFaultIsReported(urls, raw, AddIntents(urls, EMPTY_TABLE, raw.intents.value).value, k - 10);
    }
  }

  /** What an accepted manifest keeps of its raw form. */
  lemma ValidatedKeeps(urls: Urls.Parser, raw: RawManifest)
    requires Validated(urls, raw).Ok?
    ensures var m := Validated(urls, raw).value;
      && raw.version == Some(m.version) && raw.id == Some(m.id) && raw.name == Some(m.name)
      && raw.category == Some(m.category) && raw.summary == Some(m.summary)
      && raw.tiers == Some(m.tiers) && raw.auth == Some(m.auth)
      && raw.intents.Some? && EntriesValid(urls, raw.intents.value) && m.intents == VerbsOf(raw.intents.value)
      && Holds(urls, EMPTY_TABLE, raw.intents.value, IntentTable(m.intents, m.metadata))
      && raw.schema.Some? && urls.parse(raw.schema.value.url) == Some(m.schemaUrl)
      && m.eventsUrl == (if raw.events.Some? then urls.parse(raw.events.value.url) else None)
      && m.endpointUrl == (if raw.endpointUrl.Some? then urls.parse(raw.endpointUrl.value) else None)
      && m.channels == KeptChannels(urls, raw.channels)
  {
    ValidatedIff(urls, raw);
    AddIntentsIff(urls, EMPTY_TABLE, raw.intents.value);
    AddChannelsIff(urls, ChannelList([], {}), raw.channels);
    assert {} + VerbsOf(raw.intents.value) == VerbsOf(raw.intents.value);
    assert [] + KeptChannels(urls, raw.channels) == KeptChannels(urls, raw.channels);
  }
}
