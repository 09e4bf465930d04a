/**
 Turning foreign tool names into intent verbs, after `ferridis-client/src/mcp/mod.rs`.

 The reference for the one-pass loop is a description that never looks at positions: the
 slug is the dash-joined list of a name's words, a word being a longest run of ASCII
 letters and digits, in lower case.
 */
module Slugs {
  import opened Wrappers
  import opened Segments
  import IntentVerbs
  import Json

  predicate IsAlnum(c: char) {
    IntentVerbs.IsLower(c) || IntentVerbs.IsUpper(c) || IntentVerbs.IsDigit(c)
  }

  function Lower(c: char): char {
    if IntentVerbs.IsUpper(c) then c - 'A' + 'a' else c
  }

  /** A name with everything that is not a letter or digit blanked to a dash. */
  function Dashed(s: string): (d: string)
    ensures |d| == |s|
  {
    seq(|s|, k requires 0 <= k < |s| => if IsAlnum(s[k]) then Lower(s[k]) else '-')
  }

  function NonEmpty(ws: seq<string>): seq<string> {
    if ws == [] then [] else (if ws[0] == "" then [] else [ws[0]]) + NonEmpty(ws[1..])
  }

  function Words(s: string): seq<string> {
    NonEmpty(Split(Dashed(s), '-'))
  }

  function Slug(s: string): string {
    Join(Words(s), '-')
  }

  // ---- Words ------------------------------------------------------------------------

  lemma {:induction false} NonEmptyConcat(a: seq<string>, b: seq<string>)
    ensures NonEmpty(a + b) == NonEmpty(a) + NonEmpty(b)
  {
    if a == [] {
      assert a + b == b;
    } else {
      assert (a + b)[1..] == a[1..] + b;
      NonEmptyConcat(a[1..], b);
    }
  }

  lemma NonEmptyOne(w: string)
    ensures NonEmpty([w]) == if w == "" then [] else [w]
  {
    assert [w][1..] == [];
  }

  lemma {:induction false} NonEmptyMembers(ws: seq<string>)
    ensures forall k :: 0 <= k < |NonEmpty(ws)| ==> NonEmpty(ws)[k] != "" && NonEmpty(ws)[k] in ws
  {
    if ws != [] {
      NonEmptyMembers(ws[1..]);
    }
  }

  lemma {:induction false} NonEmptyKeeps(ws: seq<string>)
    requires forall k :: 0 <= k < |ws| ==> ws[k] != ""
    ensures NonEmpty(ws) == ws
  {
    if ws != [] {
      NonEmptyKeeps(ws[1..]);
    }
  }

  /** A cut at a separator cuts the words in two lists. */
  lemma NonEmptySplit(a: string, b: string)
    ensures NonEmpty(Split(a + ['-'] + b, '-')) == NonEmpty(Split(a, '-')) + NonEmpty(Split(b, '-'))
  {
    var r := Rest(a, '-');
    CompleteConcat(a, ['-'] + b, '-');
    Assoc(a, ['-'], b);
    CompleteUnfold(r, '-', b);
    Assoc(r, ['-'], b);
    Assoc(Complete(a, '-'), [r], Complete(b, '-'));
    Assoc(Split(a, '-'), Complete(b, '-'), [Rest(b, '-')]);
    NonEmptyConcat(Split(a, '-'), Split(b, '-'));
  }

  lemma {:induction false} InSegment(s: string, w: string, c: char)
    requires w in Split(s, '-') && c in w
    ensures c in s
    decreases |s|
  {
    if '-' in s {
      var head, tail := Cut(s, '-');
      if w != head {
        Assoc([head], Complete(tail, '-'), [Rest(tail, '-')]);
        assert w in Split(tail, '-');
        InSegment(tail, w, c);
      }
    } else {
      CompleteNone(s, '-');
    }
  }

  lemma WordsAreWords(s: string)
    ensures IntentVerbs.AllWords(Words(s)) && Separated(Words(s), '-')
  {
    var d := Dashed(s);
    NonEmptyMembers(Split(d, '-'));
    JoinSplit(d, '-');
    forall k, j | 0 <= k < |Words(s)| && 0 <= j < |Words(s)[k]|
      ensures IntentVerbs.IsLower(Words(s)[k][j]) || IntentVerbs.IsDigit(Words(s)[k][j])
    {
      var w := Words(s)[k];
      InSegment(d, w, w[j]);
      assert '-' !in w;
    }
  }

  lemma SplitSlug(s: string)
    requires Words(s) != []
    ensures Split(Slug(s), '-') == Words(s)
  {
    WordsAreWords(s);
    SplitJoin(Words(s), '-');
  }

  /** A slug is empty or a verb. */
  lemma SlugIsVerb(s: string)
    ensures Slug(s) == "" <==> Words(s) == []
    ensures Slug(s) != "" ==> IntentVerbs.Parse(Slug(s)) == Ok(Slug(s))
  {
    WordsAreWords(s);
    if Words(s) != [] {
      SplitSlug(s);
      IntentVerbs.ParsesIffWords(Slug(s));
    }
  }

  lemma {:induction false} NoWordsIff(s: string)
    ensures NonEmpty(Split(s, '-')) == [] <==> forall k :: 0 <= k < |s| ==> s[k] == '-'
    decreases |s|
  {
    if '-' in s {
      var head, tail := Cut(s, '-');
      NonEmptySplit(head, tail);
      CompleteNone(head, '-');
      NonEmptyOne(head);
      NoWordsIff(tail);
      if forall k :: 0 <= k < |tail| ==> tail[k] == '-' {
      } else {
        var k :| 0 <= k < |tail| && tail[k] != '-';
        assert s[|head| + 1 + k] == tail[k];
      }
      assert head != "" ==> s[0] == head[0];
    } else {
      CompleteNone(s, '-');
      NonEmptyOne(s);
      assert s != "" ==> s[0] in s;
    }
  }

  /** A slug is empty, which the caller reports as a bad verb, exactly when there is nothing to keep. */
  lemma SlugEmptyIff(s: string)
    ensures Slug(s) == "" <==> forall k :: 0 <= k < |s| ==> !IsAlnum(s[k])
  {
    SlugIsVerb(s);
    NoWordsIff(Dashed(s));
    if c: nat :| c < |s| && IsAlnum(s[c]) {
      assert Dashed(s)[c] != '-';
    }
  }

  /** Slugging changes exactly the strings that are neither empty nor verbs. */
  lemma FixedIff(s: string)
    ensures Slug(s) == s <==> s == "" || IntentVerbs.Parse(s).Ok?
  {
    SlugIsVerb(s);
    if IntentVerbs.Parse(s).Ok? {
      assert Dashed(s) == s;
      IntentVerbs.ParsesIffWords(s);
      NonEmptyKeeps(Split(s, '-'));
      JoinSplit(s, '-');
    } else if s == "" {
      NoWordsIff(Dashed(s));
    }
  }

  lemma SlugIdempotent(s: string)
    ensures Slug(Slug(s)) == Slug(s)
  {
    SlugIsVerb(s);
    FixedIff(Slug(s));
  }

  /** Two names collide exactly when they have the same words. */
  lemma CollideIff(a: string, b: string)
    ensures Slug(a) == Slug(b) <==> Words(a) == Words(b)
  {
    SlugIsVerb(a);
    SlugIsVerb(b);
    if Slug(a) == Slug(b) && Slug(a) != "" {
      SplitSlug(a);
      SplitSlug(b);
    }
  }

  // ---- The loop ---------------------------------------------------------------------

  lemma DashedStep(s: string, k: nat)
    requires k < |s|
    ensures Dashed(s[..k + 1]) == Dashed(s[..k]) + [if IsAlnum(s[k]) then Lower(s[k]) else '-']
  {
  }

  /** The words read so far, the finished ones and the one being read, when `c` follows. */
  lemma ReadStep(d: string, c: char)
    ensures c == '-' ==> Complete(d + [c], '-') == Complete(d, '-') + [Rest(d, '-')] && Rest(d + [c], '-') == ""
    ensures c != '-' ==> Complete(d + [c], '-') == Complete(d, '-') && Rest(d + [c], '-') == Rest(d, '-') + [c]
  {
    var r := Rest(d, '-');
    CompleteConcat(d, [c], '-');
    if c == '-' {
      CompleteUnfold(r, '-', "");
      assert r + ['-'] + "" == r + ['-'];
    } else {
      CompleteNone(r + [c], '-');
    }
  }

  lemma {:induction false} JoinIsTerminate(ws: seq<string>, w: string)
    ensures Join(ws + [w], '-') == Terminate(ws, '-') + w
  {
    if ws == [] {
      assert ws + [w] == [w];
    } else {
      assert (ws + [w])[1..] == ws[1..] + [w];
      JoinIsTerminate(ws[1..], w);
    }
  }

  lemma TerminateOneMore(ws: seq<string>, w: string)
    ensures Terminate(ws + [w], '-') == Terminate(ws, '-') + w + ['-']
  {
    TerminateConcat(ws, [w], '-');
    assert Terminate([w], '-') == w + ['-'] + Terminate([], '-');
  }

  /** What the loop has written after reading `d`. */
  function Written(d: string): string {
    Terminate(NonEmpty(Complete(d, '-')), '-') + Rest(d, '-')
  }

  lemma WrittenStep(d: string, c: char)
    ensures Written(d + [c]) == Written(d) + if c == '-' && Rest(d, '-') == "" then "" else [c]
  {
    var ws, r := NonEmpty(Complete(d, '-')), Rest(d, '-');
    ReadStep(d, c);
    if c == '-' {
      NonEmptyConcat(Complete(d, '-'), [r]);
      NonEmptyOne(r);
      if r == "" {
        assert ws + [] == ws;
      } else {
        TerminateOneMore(ws, r);
      }
    } else {
      Assoc(Terminate(ws, '-'), r, [c]);
    }
  }

  /** Between words, what is written is empty or ends in a dash; inside one it does not. */
  lemma WrittenEnds(d: string)
    ensures Written(d) != "" && Written(d)[|Written(d)| - 1] == '-' ==>
      Rest(d, '-') == "" && Written(d)[..|Written(d)| - 1] == Join(NonEmpty(Split(d, '-')), '-')
    ensures (Written(d) == "" || Written(d)[|Written(d)| - 1] != '-') ==> Written(d) == Join(NonEmpty(Split(d, '-')), '-')
  {
    var ws, r := NonEmpty(Complete(d, '-')), Rest(d, '-');
    NonEmptyConcat(Complete(d, '-'), [r]);
    NonEmptyOne(r);
    if r != "" {
      JoinIsTerminate(ws, r);
      assert Written(d)[|Written(d)| - 1] == r[|r| - 1];
    } else {
      assert ws + [] == ws;
      if ws != [] {
        var front, last := ws[..|ws| - 1], ws[|ws| - 1];
        assert ws == front + [last];
        TerminateOneMore(front, last);
        JoinIsTerminate(front, last);
      }
    }
  }

  /** One turn of the loop, with `d` read so far. */
  lemma LoopStep(s: string, k: nat)
    requires k < |s|
    ensures var d, d' := Dashed(s[..k]), Dashed(s[..k + 1]);
      && (IsAlnum(s[k]) ==> Written(d') == Written(d) + [Lower(s[k])] && Rest(d', '-') != "")
      && (!IsAlnum(s[k]) && Rest(d, '-') != "" ==> Written(d') == Written(d) + ['-'] && Rest(d', '-') == "")
      && (!IsAlnum(s[k]) && Rest(d, '-') == "" ==> Written(d') == Written(d) && Rest(d', '-') == "")
  {
    var c := if IsAlnum(s[k]) then Lower(s[k]) else '-';
    DashedStep(s, k);
    WrittenStep(Dashed(s[..k]), c);
    ReadStep(Dashed(s[..k]), c);
  }

  method Slugify(s: string) returns (out: string)
    ensures out == Slug(s)
  {
    out := "";
    var lastWasDash := true;
    for i := 0 to |s|
      invariant out == Written(Dashed(s[..i]))
      invariant lastWasDash <==> Rest(Dashed(s[..i]), '-') == ""
    {
      LoopStep(s, i);
      var c := s[i];
      if IsAlnum(c) {
        out := out + [Lower(c)];
        lastWasDash := false;
      } else if !lastWasDash {
        out := out + ['-'];
        lastWasDash := true;
      }
    }
    assert s[..|s|] == s;
    WrittenEnds(Dashed(s));
    if out != "" && out[|out| - 1] == '-' {
      out := out[..|out| - 1];
    }
  }

  // ---- Projecting an MCP tool list --------------------------------------------------

  datatype McpTool = McpTool(name: string, inputSchema: Option<Json.Value>)

  datatype ProjectionError =
    | BadVerb(error: IntentVerbs.VerbError)
    | ToolNameCollision(first: string, second: string, verb: string)

  datatype Projection = Projection(
    intents: seq<string>, intentToMcp: map<string, string>, inputSchemas: map<string, Json.Value>)

  function SlugsOf(tools: seq<McpTool>): (slugs: seq<string>)
    ensures |slugs| == |tools|
    ensures forall k :: 0 <= k < |tools| ==> slugs[k] == Slug(tools[k].name)
  {
    seq(|tools|, k requires 0 <= k < |tools| => Slug(tools[k].name))
  }

  /** The first `n` slugs are non-empty, and no two are the same. */
  ghost predicate Clean(slugs: seq<string>, n: nat)
    requires n <= |slugs|
  {
    && (forall i :: 0 <= i < n ==> slugs[i] != "")
    && (forall i, j :: 0 <= i < j < n ==> slugs[i] != slugs[j])
  }

  /** `p` holds the first `n` tools, each under its slug, and nothing else. */
  ghost predicate Projects(p: Projection, tools: seq<McpTool>, slugs: seq<string>, n: nat)
    requires n <= |tools| == |slugs|
  {
    && |p.intents| == n
    && (forall i :: 0 <= i < n ==> p.intents[i] == slugs[i])
    && (forall v :: v in p.intentToMcp ==> v in p.intents)
    && (forall v :: v in p.inputSchemas ==> v in p.intents)
    && forall i :: 0 <= i < n ==> Carries(p, tools[i], slugs[i])
  }

  ghost predicate Carries(p: Projection, tool: McpTool, verb: string) {
    && verb in p.intentToMcp && p.intentToMcp[verb] == tool.name
    && (tool.inputSchema.Some? <==> verb in p.inputSchemas)
    && (tool.inputSchema.Some? ==> p.inputSchemas[verb] == tool.inputSchema.value)
  }

  /** Tool `n` is the first that cannot be projected, and `e` says why. */
  ghost predicate FirstFault(tools: seq<McpTool>, slugs: seq<string>, n: nat, e: ProjectionError)
    requires n < |tools| == |slugs|
  {
    && Clean(slugs, n)
    && (slugs[n] == "" ==> e == BadVerb(IntentVerbs.MissingVerb))
    && (slugs[n] != "" ==> exists j :: 0 <= j < n && Collides(tools, slugs, j, n, e))
  }

  ghost predicate Collides(tools: seq<McpTool>, slugs: seq<string>, j: nat, n: nat, e: ProjectionError)
    requires j < n < |tools| == |slugs|
  {
    slugs[j] == slugs[n] && e == ToolNameCollision(tools[j].name, tools[n].name, slugs[n])
  }

  function Project(p: Projection, tool: McpTool, verb: string): Projection {
    Projection(
      p.intents + [verb],
      p.intentToMcp[verb := tool.name],
      if tool.inputSchema.Some? then p.inputSchemas[verb := tool.inputSchema.value] else p.inputSchemas)
  }

  lemma ProjectsStep(p: Projection, tools: seq<McpTool>, slugs: seq<string>, n: nat)
    requires n < |tools| == |slugs| && Clean(slugs, n) && Projects(p, tools, slugs, n)
    requires slugs[n] != "" && slugs[n] !in p.intentToMcp
    ensures Projects(Project(p, tools[n], slugs[n]), tools, slugs, n + 1)
    ensures Clean(slugs, n + 1)
  {
    var p' := Project(p, tools[n], slugs[n]);
    forall j | 0 <= j < n
      ensures p'.intents[j] == slugs[j] != slugs[n] && Carries(p', tools[j], slugs[j])
    {
      assert Carries(p, tools[j], slugs[j]);
    }
    assert Carries(p', tools[n], slugs[n]) && p'.intents[n] == slugs[n];
    forall v | v in p'.intentToMcp || v in p'.inputSchemas
      ensures v in p'.intents
    {
      if v != slugs[n] {
        assert v in p.intents;
      }
    }
  }

  lemma CollisionStep(p: Projection, tools: seq<McpTool>, slugs: seq<string>, n: nat)
    requires n < |tools| == |slugs| && Clean(slugs, n) && Projects(p, tools, slugs, n)
    requires slugs[n] in p.intentToMcp
    ensures FirstFault(tools, slugs, n, ToolNameCollision(p.intentToMcp[slugs[n]], tools[n].name, slugs[n]))
  {
    var j: nat :| j < n && p.intents[j] == slugs[n];
    assert Carries(p, tools[j], slugs[j]);
    assert Collides(tools, slugs, j, n, ToolNameCollision(p.intentToMcp[slugs[n]], tools[n].name, slugs[n]));
  }

  lemma FaultIsUnclean(tools: seq<McpTool>, slugs: seq<string>, n: nat, e: ProjectionError)
    requires n < |tools| == |slugs| && FirstFault(tools, slugs, n, e)
    ensures !Clean(slugs, |tools|)
  {
  }

  /** The projection fails exactly when a slug is empty or repeated, at the first such tool. */
  method ProjectTools(tools: seq<McpTool>) returns (r: Result<Projection, ProjectionError>)
    ensures r.Ok? <==> Clean(SlugsOf(tools), |tools|)
    ensures r.Ok? ==> Projects(r.value, tools, SlugsOf(tools), |tools|)
    ensures r.Err? ==> exists n :: 0 <= n < |tools| && FirstFault(tools, SlugsOf(tools), n, r.error)
  {
    ghost var slugs := SlugsOf(tools);
    var p := Projection([], map[], map[]);
    for i := 0 to |tools|
      invariant Clean(slugs, i)
      invariant Projects(p, tools, slugs, i)
    {
      var tool := tools[i];
      var verb := Slugify(tool.name);
      SlugIsVerb(tool.name);
      assert slugs[i] == verb;
      var parsed := IntentVerbs.Parse(verb);
      if parsed.Err? {
        assert verb == "" && FirstFault(tools, slugs, i, BadVerb(parsed.error));
        FaultIsUnclean(tools, slugs, i, BadVerb(parsed.error));
        return Err(BadVerb(parsed.error));
      }
      if verb in p.intentToMcp {
        CollisionStep(p, tools, slugs, i);
        FaultIsUnclean(tools, slugs, i, ToolNameCollision(p.intentToMcp[verb], tool.name, verb));
        return Err(ToolNameCollision(p.intentToMcp[verb], tool.name, verb));
      }
      ProjectsStep(p, tools, slugs, i);
      var intents := p.intents + [verb];
      var schemas := p.inputSchemas;
      if tool.inputSchema.Some? {
        schemas := schemas[verb := tool.inputSchema.value];
      }
      p := Projection(intents, p.intentToMcp[verb := tool.name], schemas);
    }
    return Ok(p);
  }
}
