/**
 The mesh client's cache and the federation of `ferridis-protocol/src/mesh.rs`.

 Signature checking is an arbitrary predicate of manifest, bundle and wall-clock time. A
 cache hit is verified again at the time it is returned, as the code does; the module
 comment at lines 50-53 of the source says it is not.
 */
module Mesh {
  import opened Wrappers
  import opened Capability

  /** Milliseconds of a clock that never runs backwards; verification reads a wall clock instead. */
  type Instant = int
  type WallTime = int

  type Bytes = string
  type Bundle = string

  datatype MeshError =
    | BadStatus(status: nat, url: string)
    | Transport
    | BadBundle
    | BadSignature
    | CapabilityNotFound(url: string)

  datatype Artifact = Artifact(manifestBytes: Bytes, bundle: Bundle)

  datatype CacheEntry = CacheEntry(manifestBytes: Bytes, bundleJson: Bytes, insertedAt: Instant)

  type Cache = map<CapabilityRef, CacheEntry>

  datatype Config = Config(
    parseBundle: Bytes -> Option<Bundle>, verifies: (Bytes, Bundle, WallTime) -> bool, ttl: nat)

  datatype Outcome<R> = Outcome(cache: Cache, reply: R)

  /** Parsing the bundle and checking the signature, whether the bytes are fetched or cached. */
  function Checked(cfg: Config, manifest: Bytes, bundleJson: Bytes, wall: WallTime): Result<Artifact, MeshError> {
    match cfg.parseBundle(bundleJson)
    case None => Err(BadBundle)
    case Some(bundle) =>
      if cfg.verifies(manifest, bundle, wall) then Ok(Artifact(manifest, bundle)) else Err(BadSignature)
  }

  function Elapsed(now: Instant, since: Instant): int {
    if now < since then 0 else now - since
  }

  function Lookup(cfg: Config, cache: Cache, cap: CapabilityRef, now: Instant, wall: WallTime)
    : Outcome<Option<Result<Artifact, MeshError>>>
  {
    if cfg.ttl == 0 || cap !in cache then Outcome(cache, None)
    else
      var e := cache[cap];
      if Elapsed(now, e.insertedAt) > cfg.ttl then Outcome(cache - {cap}, None)
      else Outcome(cache, Some(Checked(cfg, e.manifestBytes, e.bundleJson, wall)))
  }

  function Commit(cfg: Config, cache: Cache, cap: CapabilityRef, manifest: Bytes, bundleJson: Bytes,
                  wall: WallTime, now: Instant): Outcome<Result<Artifact, MeshError>>
  {
    var checked := Checked(cfg, manifest, bundleJson, wall);
    if checked.Ok? && cfg.ttl != 0 then
      Outcome(cache[cap := CacheEntry(manifest, bundleJson, now)], checked)
    else Outcome(cache, checked)
  }

  /** What one call meets: its clock readings and what the mesh answers if it is asked. */
  datatype Call = Call(
    lookupAt: Instant, lookupWall: WallTime,
    manifest: Result<Bytes, MeshError>, bundleJson: Result<Bytes, MeshError>,
    verifyWall: WallTime, insertAt: Instant)

  function Fetched(cfg: Config, cache: Cache, cap: CapabilityRef, call: Call): Outcome<Result<Artifact, MeshError>> {
    var looked := Lookup(cfg, cache, cap, call.lookupAt, call.lookupWall);
    if looked.reply.Some? then Outcome(looked.cache, looked.reply.value)
    else if call.manifest.Err? then Outcome(looked.cache, Err(call.manifest.error))
    else if call.bundleJson.Err? then Outcome(looked.cache, Err(call.bundleJson.error))
    else Commit(cfg, looked.cache, cap, call.manifest.value, call.bundleJson.value, call.verifyWall, call.insertAt)
  }

  /** The cache that a client shares with its clones. */
  class CacheCell {
    var cache: Cache

    constructor ()
      ensures cache == map[]
    {
      cache := map[];
    }
  }

  class MeshClient {
    const cfg: Config
    const cell: CacheCell

    /** A clone keeps the cell and may have another TTL. */
    constructor (cfg: Config, cell: CacheCell)
      ensures this.cfg == cfg && this.cell == cell
    {
      this.cfg, this.cell := cfg, cell;
    }

    method LookupCached(cap: CapabilityRef, now: Instant, wall: WallTime)
      returns (r: Option<Result<Artifact, MeshError>>)
      requires cfg.ttl != 0
      modifies cell
      ensures Outcome(cell.cache, r) == Lookup(cfg, old(cell.cache), cap, now, wall)
    {
      if cap !in cell.cache {
        return None;
      }
      var entry := cell.cache[cap];
      if Elapsed(now, entry.insertedAt) > cfg.ttl {
        cell.cache := cell.cache - {cap};
        return None;
      }
      var bundle := cfg.parseBundle(entry.bundleJson);
      if bundle.None? {
        return Some(Err(BadBundle));
      }
      if !cfg.verifies(entry.manifestBytes, bundle.value, wall) {
        return Some(Err(BadSignature));
      }
      return Some(Ok(Artifact(entry.manifestBytes, bundle.value)));
    }

    method FetchAndVerify(cap: CapabilityRef, call: Call) returns (r: Result<Artifact, MeshError>)
      modifies cell
      ensures Outcome(cell.cache, r) == Fetched(cfg, old(cell.cache), cap, call)
    {
      if cfg.ttl != 0 {
        var cached := LookupCached(cap, call.lookupAt, call.lookupWall);
        if cached.Some? {
          return cached.value;
        }
      }
      if call.manifest.Err? {
        return Err(call.manifest.error);
      }
      if call.bundleJson.Err? {
        return Err(call.bundleJson.error);
      }
      var bundle := cfg.parseBundle(call.bundleJson.value);
      if bundle.None? {
        return Err(BadBundle);
      }
      if !cfg.verifies(call.manifest.value, bundle.value, call.verifyWall) {
        return Err(BadSignature);
      }
      if cfg.ttl != 0 {
        cell.cache := cell.cache[cap := CacheEntry(call.manifest.value, call.bundleJson.value, call.insertAt)];
      }
      return Ok(Artifact(call.manifest.value, bundle.value));
    }
  }

  // ---- What a call returns and caches -----------------------------------------------

  /** Nothing young enough is cached, or caching is off. */
  predicate Misses(cfg: Config, cache: Cache, cap: CapabilityRef, now: Instant) {
    cfg.ttl == 0 || cap !in cache || now - cache[cap].insertedAt > cfg.ttl
  }

  /** The bytes are those of the artifact, and its signature verifies at this time. */
  predicate Vouched(cfg: Config, manifest: Bytes, bundleJson: Bytes, wall: WallTime, artifact: Artifact) {
    && manifest == artifact.manifestBytes
    && cfg.parseBundle(bundleJson) == Some(artifact.bundle)
    && cfg.verifies(artifact.manifestBytes, artifact.bundle, wall)
  }

  /** When the cache has nothing, exactly what the mesh gave and what verifies now is returned. */
  lemma FreshIff(cfg: Config, cache: Cache, cap: CapabilityRef, call: Call, artifact: Artifact)
    requires Misses(cfg, cache, cap, call.lookupAt)
    ensures Fetched(cfg, cache, cap, call).reply == Ok(artifact) <==>
      && call.manifest.Ok? && call.bundleJson.Ok?
      && Vouched(cfg, call.manifest.value, call.bundleJson.value, call.verifyWall, artifact)
  {
  }

  /** Every failure of a fresh fetch, in the order in which the code meets them. */
  lemma FreshFailures(cfg: Config, cache: Cache, cap: CapabilityRef, call: Call)
    requires Misses(cfg, cache, cap, call.lookupAt)
    ensures var reply := Fetched(cfg, cache, cap, call).reply;
      && (call.manifest.Err? ==> reply == Err(call.manifest.error))
      && (call.manifest.Ok? && call.bundleJson.Err? ==> reply == Err(call.bundleJson.error))
      && (call.manifest.Ok? && call.bundleJson.Ok? ==>
           var bundle := cfg.parseBundle(call.bundleJson.value);
           && (bundle.None? ==> reply == Err(BadBundle))
           && (bundle.Some? && !cfg.verifies(call.manifest.value, bundle.value, call.verifyWall) ==>
                reply == Err(BadSignature)))
  {
  }

  /**
   What a fresh fetch leaves in the cache: what it returned, stamped with the time of the
   insertion, unless it failed or caching is off; other capabilities are untouched.
   */
  lemma FreshIsCached(cfg: Config, cache: Cache, cap: CapabilityRef, call: Call)
    requires Misses(cfg, cache, cap, call.lookupAt)
    ensures var o := Fetched(cfg, cache, cap, call);
      && o.cache - {cap} == cache - {cap}
      && (cfg.ttl == 0 ==> o.cache == cache)
      && (cfg.ttl != 0 ==> (cap in o.cache <==> o.reply.Ok?))
      && (cfg.ttl != 0 && o.reply.Ok? ==>
           && o.cache[cap].manifestBytes == o.reply.value.manifestBytes
           && call.bundleJson == Ok(o.cache[cap].bundleJson)
           && o.cache[cap].insertedAt == call.insertAt)
  {
  }

  /** Otherwise the mesh is not asked: the cached bytes are returned exactly when they verify again, and stay. */
  lemma CachedAnswersIff(cfg: Config, cache: Cache, cap: CapabilityRef, call: Call, artifact: Artifact)
    requires !Misses(cfg, cache, cap, call.lookupAt)
    ensures var o := Fetched(cfg, cache, cap, call);
      && o.cache == cache
      && (o.reply == Ok(artifact) <==>
           Vouched(cfg, cache[cap].manifestBytes, cache[cap].bundleJson, call.lookupWall, artifact))
      && (o.reply == Err(BadBundle) <==> cfg.parseBundle(cache[cap].bundleJson).None?)
      && (o.reply.Err? ==> o.reply.error in {BadBundle, BadSignature})
  {
  }

  // ---- Runs of interleaved calls ----------------------------------------------------

  /**
   The cache is locked for a lookup and again for an insertion; between the two, any number
   of other calls may do the same. The bytes of a commit are what the mesh gave that call.
   */
  datatype Step =
    | LookupStep(cap: CapabilityRef, wall: WallTime)
    | CommitStep(cap: CapabilityRef, manifest: Bytes, bundleJson: Bytes, wall: WallTime)

  /** A step is taken by one of the clones that share the cache, each with its own TTL. */
  datatype Event = Event(step: Step, now: Instant, ttl: nat)

  function ClientOf(cfg: Config, e: Event): Config {
    cfg.(ttl := e.ttl)
  }

  function CacheAfter(cfg: Config, cache: Cache, e: Event): Cache {
    match e.step
    case LookupStep(cap, wall) => Lookup(ClientOf(cfg, e), cache, cap, e.now, wall).cache
    case CommitStep(cap, manifest, bundleJson, wall) =>
      Commit(ClientOf(cfg, e), cache, cap, manifest, bundleJson, wall, e.now).cache
  }

  function CacheAt(cfg: Config, run: seq<Event>, n: nat): Cache
    requires n <= |run|
  {
    if n == 0 then map[] else CacheAfter(cfg, CacheAt(cfg, run, n - 1), run[n - 1])
  }

  ghost predicate Monotone(run: seq<Event>) {
    forall i, j :: 0 <= i <= j < |run| ==> run[i].now <= run[j].now
  }

  predicate Inserts(cfg: Config, e: Event, cap: CapabilityRef) {
    && e.step.CommitStep? && e.step.cap == cap && e.ttl != 0
    && Checked(cfg, e.step.manifest, e.step.bundleJson, e.step.wall).Ok?
  }

  /** A lookup that finds an entry inserted at `since` too old for the client that looks. */
  predicate Evicts(e: Event, cap: CapabilityRef, since: Instant) {
    e.step.LookupStep? && e.step.cap == cap && e.ttl != 0 && e.now - since > e.ttl
  }

  /** The last insertion for `cap` among the first `n` events. */
  function LastInsert(cfg: Config, run: seq<Event>, n: nat, cap: CapabilityRef): (r: Option<nat>)
    requires n <= |run|
    ensures r.Some? ==> r.value < n && Inserts(cfg, run[r.value], cap)
  {
    if n == 0 then None
    else if Inserts(cfg, run[n - 1], cap) then Some(n - 1)
    else LastInsert(cfg, run, n - 1, cap)
  }

  function EntryOf(e: Event): CacheEntry
    requires e.step.CommitStep?
  {
    CacheEntry(e.step.manifest, e.step.bundleJson, e.now)
  }

  /** No lookup between the insertion at `i` and step `n` threw its entry away. */
  ghost predicate Kept(run: seq<Event>, i: nat, n: nat, cap: CapabilityRef)
    requires i < n <= |run|
  {
    forall k :: i < k < n ==> !Evicts(run[k], cap, run[i].now)
  }

  /** What one event does to what is cached for `cap`. */
  lemma StepOfCache(cfg: Config, cache: Cache, e: Event, cap: CapabilityRef)
    ensures var after := CacheAfter(cfg, cache, e);
      if Inserts(cfg, e, cap) then e.step.CommitStep? && cap in after && after[cap] == EntryOf(e)
      else if cap in cache && !Evicts(e, cap, cache[cap].insertedAt) then cap in after && after[cap] == cache[cap]
      else cap !in after
  {
  }

  /** The cache holds the last insertion for `cap` exactly when no lookup has evicted it since. */
  lemma {:induction false} CachedIff(cfg: Config, run: seq<Event>, n: nat, cap: CapabilityRef)
    requires n <= |run|
    ensures cap in CacheAt(cfg, run, n) <==>
      LastInsert(cfg, run, n, cap).Some? && Kept(run, LastInsert(cfg, run, n, cap).value, n, cap)
    ensures cap in CacheAt(cfg, run, n) ==>
      CacheAt(cfg, run, n)[cap] == EntryOf(run[LastInsert(cfg, run, n, cap).value])
  {
    if n > 0 {
      CachedIff(cfg, run, n - 1, cap);
      StepOfCache(cfg, CacheAt(cfg, run, n - 1), run[n - 1], cap);
    }
  }

  /** A hit at `k`: the last insertion is within the reader's own TTL, and no reader with a shorter one threw it away. */
  ghost predicate Hits(cfg: Config, run: seq<Event>, k: nat)
    requires k < |run| && run[k].step.LookupStep?
  {
    var cap, last := run[k].step.cap, LastInsert(cfg, run, k, run[k].step.cap);
    && run[k].ttl != 0 && last.Some?
    && run[k].now - run[last.value].now <= run[k].ttl && Kept(run, last.value, k, cap)
  }

  function LookupAt(cfg: Config, run: seq<Event>, k: nat): Option<Result<Artifact, MeshError>>
    requires k < |run| && run[k].step.LookupStep?
  {
    Lookup(ClientOf(cfg, run[k]), CacheAt(cfg, run, k), run[k].step.cap, run[k].now, run[k].step.wall).reply
  }

  /**
   In every run, whatever the mesh has published since and whichever clones took part, a
   lookup answers exactly when it hits, and its answer is a fresh check of the bytes that
   were inserted last.
   */
  lemma LookupIff(cfg: Config, run: seq<Event>, k: nat)
    requires k < |run| && run[k].step.LookupStep?
    ensures LookupAt(cfg, run, k).Some? <==> Hits(cfg, run, k)
    ensures Hits(cfg, run, k) ==>
      var inserted := run[LastInsert(cfg, run, k, run[k].step.cap).value].step;
      LookupAt(cfg, run, k) == Some(Checked(cfg, inserted.manifest, inserted.bundleJson, run[k].step.wall))
  {
    CachedIff(cfg, run, k, run[k].step.cap);
  }

  /** An insertion of `artifact`, made no longer than `ttl` before `now`. */
  predicate InsertsWithin(cfg: Config, e: Event, cap: CapabilityRef, now: Instant, ttl: nat, artifact: Artifact) {
    && Inserts(cfg, e, cap)
    && 0 <= now - e.now <= ttl
    && e.step.manifest == artifact.manifestBytes
    && cfg.parseBundle(e.step.bundleJson) == Some(artifact.bundle)
  }

  /**
   Every artifact a lookup returns verifies when it is returned, and is what the mesh gave
   at an insertion within the reader's own TTL.
   */
  lemma HitIsVerifiedAndRecent(cfg: Config, run: seq<Event>, k: nat, artifact: Artifact)
    requires k < |run| && run[k].step.LookupStep? && Monotone(run)
    requires LookupAt(cfg, run, k) == Some(Ok(artifact))
    ensures cfg.verifies(artifact.manifestBytes, artifact.bundle, run[k].step.wall)
    ensures exists e :: e in run[..k] && InsertsWithin(cfg, e, run[k].step.cap, run[k].now, run[k].ttl, artifact)
  {
    LookupIff(cfg, run, k);
    var i := LastInsert(cfg, run, k, run[k].step.cap).value;
    assert run[i] in run[..k] && run[i].now <= run[k].now;
    assert InsertsWithin(cfg, run[i], run[k].step.cap, run[k].now, run[k].ttl, artifact);
  }

  // ---- Federation -------------------------------------------------------------------

  predicate IsNotFound(r: Result<Artifact, MeshError>) {
    r.Err? && r.error.BadStatus? && r.error.status == 404
  }

  /** How many meshes answer 404 before one does not. */
  function Skipped(answers: seq<Result<Artifact, MeshError>>): (k: nat)
    ensures k <= |answers|
    ensures forall i :: 0 <= i < k ==> IsNotFound(answers[i])
    ensures k < |answers| ==> !IsNotFound(answers[k])
  {
    if answers == [] || !IsNotFound(answers[0]) then 0 else 1 + Skipped(answers[1..])
  }

  /** The count, known from where it stops. */
  lemma {:induction false} SkippedAt(answers: seq<Result<Artifact, MeshError>>, k: nat)
    requires k <= |answers|
    requires forall j :: 0 <= j < k ==> IsNotFound(answers[j])
    requires k < |answers| ==> !IsNotFound(answers[k])
    ensures Skipped(answers) == k
  {
    if answers != [] && k > 0 {
      SkippedAt(answers[1..], k - 1);
    }
  }

  /** The first answer that is not a 404, or not-found naming the last URL that was tried. */
  function Federated(answers: seq<Result<Artifact, MeshError>>, emptyUrl: string): Result<Artifact, MeshError> {
    var k := Skipped(answers);
    if k < |answers| then answers[k]
    else if answers == [] then Err(CapabilityNotFound(emptyUrl))
    else Err(CapabilityNotFound(answers[k - 1].error.url))
  }

  // ---- Clients that may share caches ------------------------------------------------

  type Caches = map<CacheCell, Cache>

  ghost predicate Covers(meshes: seq<MeshClient>, caches: Caches) {
    forall k :: 0 <= k < |meshes| ==> meshes[k].cell in caches
  }

  /** Asking a mesh gives `answer` and turns the caches into `after`. */
  ghost predicate Asked(mesh: MeshClient, cap: CapabilityRef, call: Call, caches: Caches,
                        answer: Result<Artifact, MeshError>, after: Caches)
  {
    && mesh.cell in caches
    && var o := Fetched(mesh.cfg, caches[mesh.cell], cap, call);
       answer == o.reply && after == caches[mesh.cell := o.cache]
  }

  /** Asking every mesh in turn would give these answers, through these caches. */
  ghost predicate AskedInTurn(meshes: seq<MeshClient>, cap: CapabilityRef, calls: seq<Call>,
                              answers: seq<Result<Artifact, MeshError>>, caches: seq<Caches>)
  {
    && |meshes| == |calls| == |answers| && |caches| == |meshes| + 1
    && forall k :: 0 <= k < |meshes| ==> Asked(meshes[k], cap, calls[k], caches[k], answers[k], caches[k + 1])
  }

  /** From any caches there is exactly such a course to follow. */
  lemma {:induction false} CourseFrom(meshes: seq<MeshClient>, cap: CapabilityRef, calls: seq<Call>, start: Caches)
    returns (answers: seq<Result<Artifact, MeshError>>, caches: seq<Caches>)
    requires |meshes| == |calls| && Covers(meshes, start)
    ensures AskedInTurn(meshes, cap, calls, answers, caches) && caches[0] == start
  {
    answers, caches := [], [start];
    if meshes != [] {
      var o := Fetched(meshes[0].cfg, start[meshes[0].cell], cap, calls[0]);
      var more, rest := CourseFrom(meshes[1..], cap, calls[1..], start[meshes[0].cell := o.cache]);
      answers, caches := [o.reply] + more, [start] + rest;
    }
  }

  class FederatedMesh {
    const meshes: seq<MeshClient>

    constructor (meshes: seq<MeshClient>)
      ensures this.meshes == meshes
    {
      this.meshes := meshes;
    }

    ghost function Cells(): set<CacheCell> {
      set k | 0 <= k < |meshes| :: meshes[k].cell
    }

    ghost predicate InStep(caches: Caches)
      reads Cells()
    {
      Covers(meshes, caches) && forall k :: 0 <= k < |meshes| ==> meshes[k].cell.cache == caches[meshes[k].cell]
    }

    /** Consulting one mesh changes its own cache, for every client that shares it. */
    method Ask(k: nat, cap: CapabilityRef, call: Call, ghost caches: Caches,
               ghost answer: Result<Artifact, MeshError>, ghost after: Caches)
      returns (r: Result<Artifact, MeshError>)
      requires k < |meshes| && Asked(meshes[k], cap, call, caches, answer, after) && InStep(caches)
      modifies meshes[k].cell
      ensures r == answer && InStep(after)
    {
      r := meshes[k].FetchAndVerify(cap, call);
    }

    /** Meshes after the one that answers are never consulted. */
    method FetchAndVerify(cap: CapabilityRef, calls: seq<Call>, emptyUrl: string,
                          ghost answers: seq<Result<Artifact, MeshError>>, ghost caches: seq<Caches>)
      returns (r: Result<Artifact, MeshError>)
      requires AskedInTurn(meshes, cap, calls, answers, caches) && InStep(caches[0])
      modifies Cells()
      ensures r == Federated(answers, emptyUrl)
      ensures InStep(caches[if Skipped(answers) < |meshes| then Skipped(answers) + 1 else |meshes|])
    {
      var lastNotFound: Option<string> := None;
      var k := 0;
      while k < |meshes|
        invariant k <= |meshes|
        invariant forall j :: 0 <= j < k ==> IsNotFound(answers[j])
        invariant InStep(caches[k])
        invariant lastNotFound == if k == 0 then None else Some(answers[k - 1].error.url)
      {
        var answer := Ask(k, cap, calls[k], caches[k], answers[k], caches[k + 1]);
        if !IsNotFound(answer) {
          SkippedAt(answers, k);
          return answer;
        }
        lastNotFound := Some(answer.error.url);
        k := k + 1;
      }
      SkippedAt(answers, k);
      return Err(CapabilityNotFound(match lastNotFound case Some(url) => url case None => emptyUrl));
    }
  }

  /** Priority order: whatever comes after it, the first answer that is not a 404 is the outcome. */
  lemma FirstAnswerWins(answers: seq<Result<Artifact, MeshError>>, emptyUrl: string, k: nat)
    requires k < |answers| && !(answers[k].Err? && answers[k].error.BadStatus? && answers[k].error.status == 404)
    requires forall j :: 0 <= j < k ==>
      answers[j].Err? && answers[j].error.BadStatus? && answers[j].error.status == 404
    ensures Federated(answers, emptyUrl) == answers[k]
  {
    SkippedAt(answers, k);
  }

  /**
   Not-found is reported exactly when every mesh answers 404, and then it names the URL of the
   last one asked; a single mesh never reports it itself.
   */
  lemma NotFoundIff(answers: seq<Result<Artifact, MeshError>>, emptyUrl: string)
    requires forall k :: 0 <= k < |answers| && answers[k].Err? ==> !answers[k].error.CapabilityNotFound?
    ensures var r := Federated(answers, emptyUrl);
      && ((r.Err? && r.error.CapabilityNotFound?) <==> forall k :: 0 <= k < |answers| ==>
           answers[k].Err? && answers[k].error.BadStatus? && answers[k].error.status == 404)
      && (r.Err? && r.error.CapabilityNotFound? ==>
           r.error.url == if answers == [] then emptyUrl else answers[|answers| - 1].error.url)
  {
    assert forall k :: 0 <= k < |answers| ==>
      (IsNotFound(answers[k]) <==>
        answers[k].Err? && answers[k].error.BadStatus? && answers[k].error.status == 404);
  }
}
