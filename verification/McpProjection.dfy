/**
 `project_tools_to_manifest` of `ferridis-client/src/mcp/mod.rs` as a whole: the projected
 tool list becomes a synthetic manifest and a capability reference, and is followed through
 the manifest parser and the tool catalogue.
 */
module McpProjection {
  import opened Wrappers
  import opened Json
  import opened Slugs
  import opened Manifests
  import Capability
  import IntentVerbs
  import ManifestServing
  import ToolCatalogues
  import Urls
  import Utf8

  const SUMMARY_HEAD := "Synthetic Ferridis capability projected from MCP server `"

  /** What the host and the server say: the server's name, and the namespace and version to use. */
  datatype Source = Source(serverName: string, namespace: string, version: string, tools: seq<McpTool>) {

    function Id(): string {
      namespace + "." + Slug(serverName) + "." + version
    }

    function Summary(): string {
      SUMMARY_HEAD + (serverName + "` (" + Decimal(|tools|) + " tools).")
    }

    function SchemaUrl(): string {
      "mcp+tools-list:" + Id()
    }

    function BehindRegistry(): string {
      namespace + ['/'] + Slug(serverName) + ['@'] + version
    }

    function CapabilityUrl(): string {
      Capability.SCHEME + ("wallet" + ['/'] + BehindRegistry())
    }
  }

  function Decimal(n: nat): string {
    if n < 10 then [('0' as int + n) as char] else Decimal(n / 10) + [('0' as int + n % 10) as char]
  }

  /** The number that a string of figures stands for. */
  function Numeral(s: string): int {
    if s == "" then 0 else 10 * Numeral(s[..|s| - 1]) + (s[|s| - 1] as int - '0' as int)
  }

  /** The decimal form of a number: its figures, without a leading zero. */
  lemma {:induction false} DecimalIs(n: nat)
    ensures Numeral(Decimal(n)) == n && Decimal(n) != ""
    ensures forall c :: c in Decimal(n) ==> '0' <= c <= '9'
    ensures n > 0 ==> Decimal(n)[0] != '0'
  {
    if n < 10 {
      assert Decimal(n)[..0] == "";
    } else {
      var front, last := Decimal(n / 10), ('0' as int + n % 10) as char;
      DecimalIs(n / 10);
      assert Decimal(n)[..|front|] == front;
    }
  }

  function SyntheticDocument(src: Source, intents: seq<string>): ManifestServing.Document {
    ManifestServing.Document(
      "0.1", src.Id(), "MCP \U{2014} " + src.serverName, "external-mcp", src.Summary(),
      Array(ManifestServing.ServeStrings(intents)),
      RawSchemaRef("mcp-tools-list", src.SchemaUrl()),
      Array([String("native")]), Object(map["type" := String("none")]))
  }

  function SyntheticManifest(src: Source, intents: seq<string>): Value {
    ManifestServing.ToJson(SyntheticDocument(src, intents))
  }

  function Flats(verbs: seq<string>): (raws: seq<RawIntent>)
    ensures |raws| == |verbs|
    ensures forall k :: 0 <= k < |verbs| ==> raws[k] == Flat(verbs[k])
  {
    seq(|verbs|, k requires 0 <= k < |verbs| => Flat(verbs[k]))
  }

  function SyntheticRaw(src: Source, intents: seq<string>): RawManifest {
    RawManifest(
      Some("0.1"), Some(src.Id()), Some("MCP \U{2014} " + src.serverName), Some("external-mcp"), Some(src.Summary()),
      Some(Flats(intents)), Some(RawSchemaRef("mcp-tools-list", src.SchemaUrl())),
      None, [], None, Some([Native]), Some(NoAuth))
  }

  lemma DecodeSynthetic(src: Source, intents: seq<string>)
    ensures ManifestServing.DecodeManifest(SyntheticManifest(src, intents)) == Some(SyntheticRaw(src, intents))
  {
    var doc := SyntheticDocument(src, intents);
    ManifestServing.DecodeAllServed(doc.intents.items, ManifestServing.DecodeIntent, Flats(intents));
    ManifestServing.DecodeAllServed(doc.tiers.items, ManifestServing.DecodeTier, [Native]);
    ManifestServing.DecodeServedAuth(NoAuth);
    ManifestServing.DecodeDocument(doc, Flats(intents), [Native], NoAuth);
  }

  /** The intents of a clean tool list read back, as plain requests under the projected verbs. */
  lemma ProjectedIntents(urls: Urls.Parser, verbs: seq<string>)
    requires Clean(verbs, |verbs|) && forall k :: 0 <= k < |verbs| ==> IntentVerbs.Parse(verbs[k]).Ok?
    ensures AddIntents(urls, EMPTY_TABLE, Flats(verbs)).Ok?
    ensures AddIntents(urls, EMPTY_TABLE, Flats(verbs)).value.intents == set v | v in verbs
  {
    var raws := Flats(verbs);
    assert EntriesValid(urls, raws);
    AddIntentsIff(urls, EMPTY_TABLE, raws);
    forall v
      ensures v in VerbsOf(raws) <==> v in verbs
    {
      ManifestServing.VerbsOfIff(raws, v);
      if v in verbs {
        var k: nat :| k < |verbs| && verbs[k] == v;
        assert raws[k].verb == v;
      }
    }
  }

  lemma SlugsParse(tools: seq<McpTool>)
    requires Clean(SlugsOf(tools), |tools|)
    ensures forall k :: 0 <= k < |tools| ==> IntentVerbs.Parse(SlugsOf(tools)[k]).Ok?
  {
    forall k | 0 <= k < |tools|
      ensures IntentVerbs.Parse(SlugsOf(tools)[k]).Ok?
    {
      SlugIsVerb(tools[k].name);
    }
  }

  predicate SummaryFits(src: Source) {
    |Utf8.Encode(src.Summary())| <= MAX_SUMMARY_BYTES
  }

  /** Of the synthetic manifest only the intents, the summary and the schema URL can fail to validate. */
  lemma SyntheticValidatesIff(urls: Urls.Parser, src: Source, intents: seq<string>)
    requires AddIntents(urls, EMPTY_TABLE, Flats(intents)).Ok?
    ensures var raw := SyntheticRaw(src, intents); var r := Validated(urls, raw);
      && (r.Ok? <==> intents != [] && SummaryFits(src) && urls.parse(src.SchemaUrl()).Some?)
      && (r.Ok? ==> r.value == Manifest(
           raw.version.value, raw.id.value, raw.name.value, raw.category.value, raw.summary.value,
           AddIntents(urls, EMPTY_TABLE, Flats(intents)).value.intents,
           AddIntents(urls, EMPTY_TABLE, Flats(intents)).value.metadata,
           urls.parse(src.SchemaUrl()).value, None, [], None, [Native], NoAuth))
  {
    assert ParseCategory("external-mcp") == Ok("external-mcp");
    assert |src.Summary()| >= |SUMMARY_HEAD| > 0;
  }

  /** The intents of a projection are plain requests without chunk schemas. */
  lemma {:induction false} FlatsAreRequests(urls: Urls.Parser, table: IntentTable, verbs: seq<string>)
    requires AddIntents(urls, table, Flats(verbs)).Ok?
    requires forall v :: v in table.metadata ==> table.metadata[v] == IntentMetadata(Request, None)
    ensures var after := AddIntents(urls, table, Flats(verbs)).value;
      forall v :: v in after.metadata ==> after.metadata[v] == IntentMetadata(Request, None)
    decreases |verbs|
  {
    if verbs != [] {
      assert Flats(verbs)[1..] == Flats(verbs[1..]);
      FlatsAreRequests(urls, AddIntent(urls, table, Flats(verbs)[0]).value, verbs[1..]);
    }
  }

  /** What the synthetic manifest says of the server. */
  ghost predicate IsSynthetic(urls: Urls.Parser, m: Manifest, src: Source) {
    && m.version == "0.1" && m.category == "external-mcp"
    && m.id == src.namespace + "." + Slug(src.serverName) + "." + src.version
    && m.name == "MCP \U{2014} " + src.serverName
    && m.summary == "Synthetic Ferridis capability projected from MCP server `"
                  + (src.serverName + "` (" + Decimal(|src.tools|) + " tools).")
    && m.intents == (set v | v in SlugsOf(src.tools))
    && (forall v :: v in m.metadata ==> m.metadata[v] == IntentMetadata(Request, None))
    && urls.parse("mcp+tools-list:" + m.id) == Some(m.schemaUrl)
    && m.tiers == [Native] && m.auth == NoAuth
    && m.eventsUrl.None? && m.endpointUrl.None? && m.channels == []
  }

  lemma SyntheticIs(urls: Urls.Parser, src: Source)
    requires Clean(SlugsOf(src.tools), |src.tools|) && Validated(urls, SyntheticRaw(src, SlugsOf(src.tools))).Ok?
    ensures IsSynthetic(urls, Validated(urls, SyntheticRaw(src, SlugsOf(src.tools))).value, src)
  {
    var intents := SlugsOf(src.tools);
    SlugsParse(src.tools);
    ProjectedIntents(urls, intents);
    SyntheticValidatesIff(urls, src, intents);
    FlatsAreRequests(urls, EMPTY_TABLE, intents);
  }

  datatype Failure = BadTools(tools: ProjectionError) | BadManifest(manifest: ManifestError) | BadCapability

  datatype Projected = Projected(
    manifest: Manifest, capability: Capability.CapabilityRef,
    intentToMcp: map<string, string>, inputSchemas: map<string, Value>)

  ghost predicate Projectable(urls: Urls.Parser, src: Source) {
    && Clean(SlugsOf(src.tools), |src.tools|) && src.tools != []
    && SummaryFits(src) && urls.parse(src.SchemaUrl()).Some?
    && Capability.Parse(src.CapabilityUrl()).Ok?
  }

  /** The manifest has the projected verbs for intents, and the tables lead from verbs back to tools. */
  ghost predicate IsProjectionOf(urls: Urls.Parser, out: Projected, src: Source) {
    && IsSynthetic(urls, out.manifest, src)
    && Capability.Parse(src.CapabilityUrl()) == Ok(out.capability)
    && Projects(Projection(SlugsOf(src.tools), out.intentToMcp, out.inputSchemas), src.tools,
                SlugsOf(src.tools), |src.tools|)
  }

  /** The whole function: it succeeds exactly when the source is projectable. */
  method ProjectToolsToManifest(urls: Urls.Parser, src: Source) returns (r: Result<Projected, Failure>)
    ensures r.Ok? <==> Projectable(urls, src)
    ensures r.Ok? ==> IsProjectionOf(urls, r.value, src)
    ensures (r.Err? && r.error.BadTools?) <==> !Clean(SlugsOf(src.tools), |src.tools|)
    ensures (r.Err? && r.error.BadManifest?) <==>
      Clean(SlugsOf(src.tools), |src.tools|)
      && !(src.tools != [] && SummaryFits(src) && urls.parse(src.SchemaUrl()).Some?)
  {
    var projected := ProjectTools(src.tools);
    if projected.Err? {
      return Err(BadTools(projected.error));
    }
    var p := projected.value;
    assert p.intents == SlugsOf(src.tools);
    SlugsParse(src.tools);
    ProjectedIntents(urls, p.intents);
    DecodeSynthetic(src, p.intents);
    SyntheticValidatesIff(urls, src, p.intents);
    var manifest := ManifestServing.Parse(urls, SyntheticManifest(src, p.intents));
    if manifest.Err? {
      return Err(BadManifest(manifest.error));
    }
    SyntheticIs(urls, src);
    var capability := Capability.Parse(src.CapabilityUrl());
    if capability.Err? {
      return Err(BadCapability);
    }
    return Ok(Projected(manifest.value, capability.value, p.intentToMcp, p.inputSchemas));
  }

  /** The capability reference is what is read behind the registry, cut at the last `@` of all. */
  lemma CapabilityParsesIff(src: Source)
    ensures var r, read := Capability.Parse(src.CapabilityUrl()), Capability.Behind("wallet", src.BehindRegistry());
      && (r.Ok? <==> read.Some?)
      && (r.Ok? ==> r.value == read.value)
  {
    Capability.ParseBehind("wallet", src.BehindRegistry());
  }

  /**
   With a version that has no `@`, it parses exactly when the namespace is not empty, the
   server's name has a letter or digit, and the version is one.
   */
  lemma PlainVersionIff(src: Source)
    requires '@' !in src.version
    ensures var r := Capability.Parse(src.CapabilityUrl());
      && (r.Ok? <==>
           && src.namespace != ""
           && (exists k :: 0 <= k < |src.serverName| && IsAlnum(src.serverName[k]))
           && Capability.IsVersion(src.version))
      && (r.Ok? ==> r.value == Capability.RawRef("wallet", src.namespace, Slug(src.serverName), src.version))
  {
    var slug := Slug(src.serverName);
    SlugIsVerb(src.serverName);
    SlugEmptyIff(src.serverName);
    assert '/' !in slug;
    Capability.EnoughParts(Capability.RawRef("wallet", src.namespace, slug, src.version));
  }

  /**
   The whole loop for one server: the tool published for an intent of the parsed synthetic
   manifest resolves back to the MCP tool that intent was projected from.
   */
  lemma ProjectedLoop(urls: Urls.Parser, src: Source, out: Projected, order: seq<string>,
                      table: ToolCatalogues.SchemaTable, k: nat)
    requires Clean(SlugsOf(src.tools), |src.tools|) && IsProjectionOf(urls, out, src) && k < |src.tools|
    requires ManifestServing.Lists(order, out.manifest.intents)
    ensures var entry := ToolCatalogues.AdapterEntry(
        out.capability, out.manifest.id, out.manifest.name, out.manifest.summary, order, Some(out.inputSchemas));
      var name := ToolCatalogues.ToolName(out.manifest.id, SlugsOf(src.tools)[k]);
      var target := ToolCatalogues.Last(ToolCatalogues.Published([entry], table), name);
      && target.Some? && target.value.capability == out.capability
      && target.value.intent in out.intentToMcp && out.intentToMcp[target.value.intent] == src.tools[k].name
  {
    var verbs := SlugsOf(src.tools);
    var entry := ToolCatalogues.AdapterEntry(
      out.capability, out.manifest.id, out.manifest.name, out.manifest.summary, order, Some(out.inputSchemas));
    SlugsParse(src.tools);
    forall j | 0 <= j < |order|
      ensures IntentVerbs.Parse(order[j]).Ok?
    {
      assert order[j] in order;
    }
    ToolCatalogues.NameLoop(src.tools, Projection(verbs, out.intentToMcp, out.inputSchemas), entry, table, k);
  }
}
