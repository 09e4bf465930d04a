/**
 The MCP tool catalogue of `ferridis-mcp-server/src/tools.rs`, and the way back from a
 published tool name to the MCP tool that an intent was projected from.
 */
module ToolCatalogues {
  import opened Wrappers
  import opened Segments
  import opened Slugs
  import Capability
  import IntentVerbs
  import Json

  /** `intents` lists the manifest's intent set in its iteration order. */
  datatype AdapterEntry = AdapterEntry(
    capability: Capability.CapabilityRef, manifestId: string, name: string, summary: string,
    intents: seq<string>, inputSchemas: Option<map<string, Json.Value>>)

  datatype Tool = Tool(name: string, description: string, inputSchema: Json.Value)

  datatype Target = Target(capability: Capability.CapabilityRef, intent: string)

  /** The built-in table of schemas, by manifest id and intent. */
  type SchemaTable = (string, string) -> Json.Value

  function IdPart(id: string): (r: string)
    ensures |r| == |id|
  {
    seq(|id|, k requires 0 <= k < |id| => if id[k] == '.' || id[k] == '-' then '_' else id[k])
  }

  function VerbPart(verb: string): (r: string)
    ensures |r| == |verb|
  {
    seq(|verb|, k requires 0 <= k < |verb| => if verb[k] == '-' then '_' else verb[k])
  }

  const PREFIX := "ferridis"

  function ToolName(manifestId: string, intent: string): string {
    PREFIX + ['_'] + IdPart(manifestId) + ['_'] + VerbPart(intent)
  }

  function Describe(entry: AdapterEntry, intent: string): string {
    "Ferridis intent `" + intent + "` on capability `" + entry.manifestId + "` (" + entry.name + "). " + entry.summary
  }

  // ---- What is published ------------------------------------------------------------

  datatype Publication = Publication(tool: Tool, target: Target)

  function Publish(entry: AdapterEntry, table: SchemaTable, intent: string): Publication {
    var schema :=
      if entry.inputSchemas.Some? && intent in entry.inputSchemas.value then entry.inputSchemas.value[intent]
      else table(entry.manifestId, intent);
    Publication(Tool(ToolName(entry.manifestId, intent), Describe(entry, intent), schema), Target(entry.capability, intent))
  }

  /** How a tool is presented, and whose schema it has: the adapter's own, or else the built-in one. */
  lemma ToolIs(entry: AdapterEntry, table: SchemaTable, intent: string)
    ensures var p := Publish(entry, table, intent);
      && p.tool.name == "ferridis_" + IdPart(entry.manifestId) + "_" + VerbPart(intent)
      && p.tool.description == "Ferridis intent `" + intent + "` on capability `" + entry.manifestId
                             + "` (" + entry.name + "). " + entry.summary
      && p.target == Target(entry.capability, intent)
      && (forall schemas :: entry.inputSchemas == Some(schemas) && intent in schemas ==>
           p.tool.inputSchema == schemas[intent])
      && (entry.inputSchemas.None? || intent !in entry.inputSchemas.value ==>
           p.tool.inputSchema == table(entry.manifestId, intent))
  {
    assert PREFIX + ['_'] == "ferridis_";
  }

  function PublishAll(entry: AdapterEntry, table: SchemaTable, intents: seq<string>): (ps: seq<Publication>)
    ensures |ps| == |intents|
    ensures forall k :: 0 <= k < |intents| ==> ps[k] == Publish(entry, table, intents[k])
  {
    seq(|intents|, k requires 0 <= k < |intents| => Publish(entry, table, intents[k]))
  }

  function Published(adapters: seq<AdapterEntry>, table: SchemaTable): seq<Publication> {
    if adapters == [] then []
    else PublishAll(adapters[0], table, adapters[0].intents) + Published(adapters[1..], table)
  }

  lemma {:induction false} PublishedConcat(a: seq<AdapterEntry>, b: seq<AdapterEntry>, table: SchemaTable)
    ensures Published(a + b, table) == Published(a, table) + Published(b, table)
  {
    if a == [] {
      assert a + b == b;
    } else {
      assert (a + b)[1..] == a[1..] + b;
      PublishedConcat(a[1..], b, table);
      Assoc(PublishAll(a[0], table, a[0].intents), Published(a[1..], table), Published(b, table));
    }
  }

  lemma PublishedOne(entry: AdapterEntry, table: SchemaTable)
    ensures Published([entry], table) == PublishAll(entry, table, entry.intents)
  {
    assert [entry][1..] == [];
    assert Published([], table) == [];
  }

  /** The target of the last publication under `name`. */
  function Last(ps: seq<Publication>, name: string): Option<Target> {
    if ps == [] then None
    else
      var later := Last(ps[1..], name);
      if later.Some? then later
      else if ps[0].tool.name == name then Some(ps[0].target) else None
  }

  lemma {:induction false} LastConcat(a: seq<Publication>, b: seq<Publication>, name: string)
    ensures Last(a + b, name) == if Last(b, name).Some? then Last(b, name) else Last(a, name)
  {
    if a == [] {
      assert a + b == b;
    } else {
      assert (a + b)[1..] == a[1..] + b;
      LastConcat(a[1..], b, name);
    }
  }

  lemma LastOne(p: Publication, name: string)
    ensures Last([p], name) == if p.tool.name == name then Some(p.target) else None
  {
    assert [p][1..] == [];
    assert Last([], name) == None;
  }

  ghost predicate IsLast(ps: seq<Publication>, i: int, name: string, target: Target) {
    && 0 <= i < |ps| && ps[i].tool.name == name && ps[i].target == target
    && forall j :: i < j < |ps| ==> ps[j].tool.name != name
  }

  /** A name resolves to a target exactly when the last publication under it has that target. */
  lemma {:induction false} LastIff(ps: seq<Publication>, name: string)
    ensures forall t :: Last(ps, name) == Some(t) <==> exists i :: IsLast(ps, i, name, t)
    ensures Last(ps, name) == None <==> forall i :: 0 <= i < |ps| ==> ps[i].tool.name != name
  {
    if ps != [] {
      var p, rest := ps[0], ps[1..];
      LastIff(rest, name);
      if Last(rest, name).Some? {
        var t := Last(rest, name).value;
        var i :| IsLast(rest, i, name, t);
        assert IsLast(ps, i + 1, name, t);
        forall j, u | IsLast(ps, j, name, u)
          ensures u == t
        {
          assert ps[i + 1].tool.name == name && ps[j].tool.name == name;
          assert j == i + 1;
        }
      } else {
        assert forall j :: 1 <= j < |ps| ==> ps[j] == rest[j - 1];
        if p.tool.name == name {
          assert IsLast(ps, 0, name, p.target);
        }
      }
    }
  }

  // ---- The catalogue ----------------------------------------------------------------

  ghost predicate Catalogues(byName: map<string, Target>, tools: seq<Tool>, ps: seq<Publication>) {
    && |tools| == |ps|
    && (forall k :: 0 <= k < |ps| ==> tools[k] == ps[k].tool)
    && forall name :: Find(byName, name) == Last(ps, name)
  }

  function Find(byName: map<string, Target>, name: string): Option<Target> {
    if name in byName then Some(byName[name]) else None
  }

  lemma CatalogueStep(byName: map<string, Target>, tools: seq<Tool>, ps: seq<Publication>, p: Publication)
    requires Catalogues(byName, tools, ps)
    ensures Catalogues(byName[p.tool.name := p.target], tools + [p.tool], ps + [p])
  {
    forall name
      ensures Find(byName[p.tool.name := p.target], name) == Last(ps + [p], name)
    {
      LastConcat(ps, [p], name);
      LastOne(p, name);
      assert Find(byName, name) == Last(ps, name);
    }
  }

  class ToolCatalogue {
    var byName: map<string, Target>
    var tools: seq<Tool>

    constructor FromAdapters(adapters: seq<AdapterEntry>, table: SchemaTable)
      ensures Catalogues(byName, tools, Published(adapters, table))
    {
      byName, tools := map[], [];
      new;
      ghost var ps: seq<Publication> := [];
      for i := 0 to |adapters|
        invariant ps == Published(adapters[..i], table)
        invariant Catalogues(byName, tools, ps)
      {
        var entry := adapters[i];
        ghost var before := ps;
        for k := 0 to |entry.intents|
          invariant ps == before + PublishAll(entry, table, entry.intents[..k])
          invariant Catalogues(byName, tools, ps)
        {
          var intent := entry.intents[k];
          var name := ToolName(entry.manifestId, intent);
          var schema := table(entry.manifestId, intent);
          if entry.inputSchemas.Some? && intent in entry.inputSchemas.value {
            schema := entry.inputSchemas.value[intent];
          }
          ghost var p := Publish(entry, table, intent);
          CatalogueStep(byName, tools, ps, p);
          PublishAllStep(before, entry, table, k);
          tools := tools + [Tool(name, Describe(entry, intent), schema)];
          byName := byName[name := Target(entry.capability, intent)];
          ps := ps + [p];
        }
        assert entry.intents[..|entry.intents|] == entry.intents;
        assert adapters[..i + 1] == adapters[..i] + [entry];
        PublishedConcat(adapters[..i], [entry], table);
        PublishedOne(entry, table);
      }
      assert adapters[..|adapters|] == adapters;
    }

    method Resolve(name: string) returns (target: Option<Target>)
      ensures target == Find(byName, name)
    {
      if name in byName {
        return Some(byName[name]);
      }
      return None;
    }
  }

  lemma PublishAllStep(before: seq<Publication>, entry: AdapterEntry, table: SchemaTable, k: nat)
    requires k < |entry.intents|
    ensures before + PublishAll(entry, table, entry.intents[..k + 1])
         == before + PublishAll(entry, table, entry.intents[..k]) + [Publish(entry, table, entry.intents[k])]
  {
    Assoc(before, PublishAll(entry, table, entry.intents[..k]), [Publish(entry, table, entry.intents[k])]);
    assert PublishAll(entry, table, entry.intents[..k + 1])
        == PublishAll(entry, table, entry.intents[..k]) + [Publish(entry, table, entry.intents[k])];
  }

  // ---- Names ------------------------------------------------------------------------

  /** Under one manifest id, different verbs get different names. */
  lemma ToolNameInjective(id: string, v: string, w: string)
    requires IntentVerbs.Parse(v).Ok? && IntentVerbs.Parse(w).Ok?
    ensures ToolName(id, v) == ToolName(id, w) <==> v == w
  {
    if ToolName(id, v) == ToolName(id, w) {
      var stem := PREFIX + ['_'] + IdPart(id) + ['_'];
      assert VerbPart(v) == ToolName(id, v)[|stem|..];
      assert VerbPart(w) == ToolName(id, w)[|stem|..];
      forall k | 0 <= k < |v|
        ensures v[k] == w[k]
      {
        assert VerbPart(v)[k] == VerbPart(w)[k];
        assert v[k] != '_' && w[k] != '_';
      }
      assert v == w;
    }
  }

  /** A manifest's intents: verbs, each once. */
  ghost predicate IsIntentSet(intents: seq<string>) {
    && (forall k :: 0 <= k < |intents| ==> IntentVerbs.Parse(intents[k]).Ok?)
    && forall j, k :: 0 <= j < k < |intents| ==> intents[j] != intents[k]
  }

  /** Within one adapter, every intent is reachable under its own name. */
  lemma ReachableWithinAdapter(entry: AdapterEntry, table: SchemaTable, k: nat)
    requires k < |entry.intents| && IsIntentSet(entry.intents)
    ensures Last(PublishAll(entry, table, entry.intents), ToolName(entry.manifestId, entry.intents[k]))
         == Some(Target(entry.capability, entry.intents[k]))
  {
    var ps := PublishAll(entry, table, entry.intents);
    var name := ToolName(entry.manifestId, entry.intents[k]);
    forall j | k < j < |ps|
      ensures ps[j].tool.name != name
    {
      ToolNameInjective(entry.manifestId, entry.intents[j], entry.intents[k]);
    }
    LastIff(ps, name);
    assert IsLast(ps, k, name, ps[k].target);
  }

  /**
   A projected MCP tool, published by a catalogue over its one adapter and resolved by its
   published name, leads back to the tool it came from, with that tool's own schema.
   */
  lemma NameLoop(tools: seq<McpTool>, p: Projection, entry: AdapterEntry, table: SchemaTable, k: nat)
    requires k < |tools| && Projects(p, tools, SlugsOf(tools), |tools|)
    requires IsIntentSet(entry.intents) && entry.inputSchemas == Some(p.inputSchemas)
    requires forall v :: v in entry.intents <==> v in p.intents
    ensures var name, ps := ToolName(entry.manifestId, p.intents[k]), Published([entry], table);
      && Last(ps, name).Some?
      && Last(ps, name).value.capability == entry.capability
      && Last(ps, name).value.intent in p.intentToMcp
      && p.intentToMcp[Last(ps, name).value.intent] == tools[k].name
      && (tools[k].inputSchema.Some? ==> exists q :: q in ps && q.tool.name == name && q.tool.inputSchema == tools[k].inputSchema.value)
  {
    var verb := p.intents[k];
    assert Carries(p, tools[k], verb);
    assert verb in entry.intents;
    var i: nat :| i < |entry.intents| && entry.intents[i] == verb;
    PublishedOne(entry, table);
    ReachableWithinAdapter(entry, table, i);
    assert Published([entry], table)[i] == Publish(entry, table, verb);
    assert Publish(entry, table, verb) in Published([entry], table);
  }

  /**
   Over many adapters an intent is reachable exactly when no later adapter reuses its tool
   name, or the last that does publishes the same intent of the same capability. The latter
   cannot be when later adapters are for other capabilities.
   */
  lemma ReachableIff(before: seq<AdapterEntry>, entry: AdapterEntry, after: seq<AdapterEntry>,
                     table: SchemaTable, k: nat)
    requires k < |entry.intents| && IsIntentSet(entry.intents)
    ensures var name, target := ToolName(entry.manifestId, entry.intents[k]), Target(entry.capability, entry.intents[k]);
      Last(Published(before + [entry] + after, table), name) == Some(target) <==>
      (forall p :: p in Published(after, table) ==> p.tool.name != name)
      || exists i :: IsLast(Published(after, table), i, name, target)
    ensures forall i :: IsLast(Published(after, table), i, ToolName(entry.manifestId, entry.intents[k]),
                               Target(entry.capability, entry.intents[k])) ==>
      exists b :: 0 <= b < |after| && after[b].capability == entry.capability
  {
    var name := ToolName(entry.manifestId, entry.intents[k]);
    PublishedConcat(before + [entry], after, table);
    PublishedConcat(before, [entry], table);
    PublishedOne(entry, table);
    ReachableWithinAdapter(entry, table, k);
    LastConcat(Published(before, table), Published([entry], table), name);
    LastConcat(Published(before + [entry], table), Published(after, table), name);
    LastIff(Published(after, table), name);
    if Last(Published(after, table), name).Some? {
      LastIsPublished(after, table, name);
    }
  }

  predicate Owns(entry: AdapterEntry, target: Target) {
    target.capability == entry.capability && target.intent in entry.intents
  }

  lemma {:induction false} LastIsPublished(adapters: seq<AdapterEntry>, table: SchemaTable, name: string)
    requires Last(Published(adapters, table), name).Some?
    ensures exists b :: 0 <= b < |adapters| && Owns(adapters[b], Last(Published(adapters, table), name).value)
  {
    var first, rest := adapters[0], adapters[1..];
    var ps := PublishAll(first, table, first.intents);
    LastConcat(ps, Published(rest, table), name);
    if Last(Published(rest, table), name).Some? {
      LastIsPublished(rest, table, name);
      var b :| 0 <= b < |rest| && Owns(rest[b], Last(Published(rest, table), name).value);
      assert adapters[b + 1] == rest[b];
    } else {
      LastIff(ps, name);
      var i :| IsLast(ps, i, name, Last(ps, name).value);
      assert Owns(adapters[0], ps[i].target);
    }
  }

  predicate IsSeparator(c: char) {
    c == '.' || c == '-' || c == '_'
  }

  /** The same but for which separator stands where one stands. */
  ghost predicate Alike(s: string, t: string) {
    |s| == |t| && forall k :: 0 <= k < |s| ==> s[k] == t[k] || (IsSeparator(s[k]) && IsSeparator(t[k]))
  }

  lemma IdPartIff(s: string, t: string)
    ensures IdPart(s) == IdPart(t) <==> Alike(s, t)
  {
    if IdPart(s) == IdPart(t) {
      forall k | 0 <= k < |s|
        ensures s[k] == t[k] || (IsSeparator(s[k]) && IsSeparator(t[k]))
      {
        assert IdPart(s)[k] == IdPart(t)[k];
      }
    }
  }

  lemma ToolNameIsIdPart(id: string, verb: string)
    requires IntentVerbs.Parse(verb).Ok?
    ensures ToolName(id, verb) == PREFIX + ['_'] + IdPart(id + ['-'] + verb)
  {
    assert VerbPart(verb) == IdPart(verb);
    assert IdPart(id + ['-'] + verb) == IdPart(id) + ['_'] + IdPart(verb);
    Assoc(PREFIX + ['_'], IdPart(id) + ['_'], IdPart(verb));
    Assoc(PREFIX + ['_'], IdPart(id), ['_']);
  }

  /** Two intents are published under one name exactly when id and verb, dash-joined, differ only in separators. */
  lemma NamesClashIff(id: string, verb: string, id': string, verb': string)
    requires IntentVerbs.Parse(verb).Ok? && IntentVerbs.Parse(verb').Ok?
    ensures ToolName(id, verb) == ToolName(id', verb') <==> Alike(id + ['-'] + verb, id' + ['-'] + verb')
  {
    var s, s' := id + ['-'] + verb, id' + ['-'] + verb';
    ToolNameIsIdPart(id, verb);
    ToolNameIsIdPart(id', verb');
    IdPartIff(s, s');
    if ToolName(id, verb) == ToolName(id', verb') {
      var stem := PREFIX + ['_'];
      assert IdPart(s) == (stem + IdPart(s))[|stem|..];
      assert IdPart(s') == (stem + IdPart(s'))[|stem|..];
    }
  }

  /** An id that continues where another id's verb begins clashes with it. */
  lemma NamesCanClash()
    ensures ToolName("acme.drive-sync.v1", "read-file") == ToolName("acme.drive.sync.v1", "read-file")
    ensures ToolName("acme.fs", "v1-read") == ToolName("acme.fs.v1", "read")
  {
    assert IdPart("acme.drive-sync.v1") == "acme_drive_sync_v1" == IdPart("acme.drive.sync.v1");
    assert ToolName("acme.fs", "v1-read") == PREFIX + "_acme_fs_v1_read";
    assert ToolName("acme.fs.v1", "read") == PREFIX + "_acme_fs_v1_read";
  }

  /** Whatever separates two names, their words stay apart. */
  lemma WordsApart(a: string, c: char, b: string)
    requires !IsAlnum(c)
    ensures Words(a + [c] + b) == Words(a) + Words(b)
  {
    assert Dashed(a + [c] + b) == Dashed(a) + ['-'] + Dashed(b);
    NonEmptySplit(Dashed(a), Dashed(b));
  }

  lemma NameWords(prefix: string, id: string, verb: string)
    ensures Words(prefix + ['_'] + IdPart(id) + ['_'] + VerbPart(verb)) == Words(prefix) + Words(id) + Words(verb)
  {
    WordsApart(prefix + ['_'] + IdPart(id), '_', VerbPart(verb));
    WordsApart(prefix, '_', IdPart(id));
    assert Dashed(IdPart(id)) == Dashed(id);
    assert Dashed(VerbPart(verb)) == Dashed(verb);
  }

  /** A published name that another client projects again keeps all its words, under one more. */
  lemma RepublishedWords(id: string, verb: string)
    ensures Words(ToolName(id, verb)) == [PREFIX] + Words(id) + Words(verb)
  {
    NameWords(PREFIX, id, verb);
    PrefixWords();
  }

  lemma PrefixWords()
    ensures Words(PREFIX) == [PREFIX]
  {
    assert Dashed(PREFIX) == PREFIX;
    CompleteNone(PREFIX, '-');
    NonEmptyOne(PREFIX);
  }
}
