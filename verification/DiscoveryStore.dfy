/**
 The service registry of `ferridis-discovery-broker/src/store.rs` and its state file.

 `ServiceStore` is the object when calls do not overlap. The second half is the same code
 as interleaved steps: the registry is locked only while it is changed or copied, so
 snapshots of several calls may be in flight, and they share one temporary file.
 */
module DiscoveryStore {
  import opened Wrappers
  import Urls

  /** Milliseconds of a clock that never runs backwards. */
  type Instant = int

  const DEFAULT_TTL := 300_000

  datatype ServiceKind = Mcp | Ferridis

  datatype Service = Service(name: string, kind: ServiceKind, url: string)

  datatype Lifetime = Ephemeral(expiresAt: Instant) | Pinned {
    predicate IsLive(now: Instant) {
      Ephemeral? ==> expiresAt > now
    }
  }

  datatype Entry = Entry(service: Service, lifetime: Lifetime)

  type Registry = map<string, Entry>

  datatype RegisterRequest = RegisterRequest(name: string, kind: string, url: string, persistent: Option<bool>)

  datatype BrokerError = UnknownKind | InvalidUrl | Io | MalformedState

  function ParseKind(s: string): Option<ServiceKind> {
    if s == "mcp" then Some(Mcp) else if s == "ferridis" then Some(Ferridis) else None
  }

  function KindText(kind: ServiceKind): string {
    match kind
    case Mcp => "mcp"
    case Ferridis => "ferridis"
  }

  function ParseService(urls: Urls.Parser, req: RegisterRequest): Result<Service, BrokerError> {
    match ParseKind(req.kind)
    case None => Err(UnknownKind)
    case Some(kind) =>
      match urls.parse(req.url)
      case None => Err(InvalidUrl)
      case Some(url) => Ok(Service(req.name, kind, url))
  }

  /** A service is registered exactly when its kind is known and its URL parses, under the parsed URL. */
  lemma ParseServiceIff(urls: Urls.Parser, req: RegisterRequest)
    ensures var r, url := ParseService(urls, req), urls.parse(req.url);
      && (r.Ok? <==> (req.kind == "mcp" || req.kind == "ferridis") && url.Some?)
      && (r.Ok? ==> r.value == Service(req.name, if req.kind == "mcp" then Mcp else Ferridis, url.value))
      && (r == Err(UnknownKind) <==> req.kind != "mcp" && req.kind != "ferridis")
      && (r.Err? ==> r.error == UnknownKind || r.error == InvalidUrl)
  {
  }

  function LifetimeOf(req: RegisterRequest, now: Instant, ttl: int): Lifetime {
    if req.persistent == Some(true) then Pinned else Ephemeral(now + ttl)
  }

  function Registered(urls: Urls.Parser, r: Registry, req: RegisterRequest, now: Instant, ttl: int): Registry {
    match ParseService(urls, req)
    case Err(_) => r
    case Ok(service) => r[req.name := Entry(service, LifetimeOf(req, now, ttl))]
  }

  function RequestOf(service: Service): RegisterRequest {
    RegisterRequest(service.name, KindText(service.kind), service.url, Some(true))
  }

  /** The entries that survive a restart. */
  function PinnedPart(r: Registry): Registry {
    map name | name in r && r[name].lifetime.Pinned? :: r[name]
  }

  /** Reading the requests of a state file into a registry; bad entries are skipped. */
  function Loaded(urls: Urls.Parser, r: Registry, requests: seq<RegisterRequest>): Registry
    decreases |requests|
  {
    if requests == [] then r
    else
      var req := requests[0];
      var r' := match ParseService(urls, req)
        case Err(_) => r
        case Ok(service) => r[req.name := Entry(service, Pinned)];
      Loaded(urls, r', requests[1..])
  }

  /** What registering can produce: entries under their own names, with URLs as displayed. */
  ghost predicate Sound(urls: Urls.Parser, r: Registry) {
    forall name :: name in r ==> r[name].service.name == name && urls.parse(r[name].service.url) == Some(r[name].service.url)
  }

  ghost predicate DistinctNames(requests: seq<RegisterRequest>) {
    forall i, j :: 0 <= i < j < |requests| ==> requests[i].name != requests[j].name
  }

  /** A list of exactly the pinned entries, in whatever order the map gives them. */
  ghost predicate IsSnapshot(requests: seq<RegisterRequest>, r: Registry) {
    && DistinctNames(requests)
    && (forall req :: req in requests ==>
         req.name in r && r[req.name].lifetime.Pinned? && req == RequestOf(r[req.name].service))
    && (forall name :: name in PinnedPart(r) ==> RequestOf(r[name].service) in requests)
  }

  datatype FileState = Missing | Unreadable | Malformed | Saved(requests: seq<RegisterRequest>)

  // ---- The object -------------------------------------------------------------------

  /** Which steps of writing the state file work. */
  datatype Disk = Disk(mkdir: bool, write: bool, rename: bool) {
    predicate Works() {
      mkdir && write && rename
    }
  }

  class ServiceStore {
    const urls: Urls.Parser
    const ttl: int
    const hasStatePath: bool
    var inner: Registry
    var tmp: FileState
    var file: FileState

    ghost predicate Valid()
      reads this
    {
      urls.Stable() && Sound(urls, inner)
    }

    /** The temporary file holds the new snapshot only if its write was the last thing that worked. */
    ghost predicate Leftover(disk: Disk, before: FileState)
      reads this
    {
      if !hasStatePath || !disk.mkdir || !disk.write then tmp == before
      else if disk.rename then tmp.Missing?
      else tmp.Saved? && IsSnapshot(tmp.requests, inner)
    }

    constructor (urls: Urls.Parser, ttl: int, hasStatePath: bool, tmp: FileState, file: FileState)
      requires urls.Stable()
      ensures Valid() && inner == map[] && this.tmp == tmp && this.file == file
      ensures this.urls == urls && this.ttl == ttl && this.hasStatePath == hasStatePath
    {
      this.urls, this.ttl, this.hasStatePath := urls, ttl, hasStatePath;
      this.tmp, this.file, inner := tmp, file, map[];
    }

    /** The number counts every entry of the file, the skipped ones too. */
    method LoadState() returns (r: Result<nat, BrokerError>)
      requires Valid()
      modifies this`inner
      ensures Valid()
      ensures r == if !hasStatePath || file.Missing? then Ok(0)
                   else if file.Unreadable? then Err(Io)
                   else if file.Malformed? then Err(MalformedState)
                   else Ok(|file.requests|)
      ensures inner == if hasStatePath && file.Saved? then Loaded(urls, old(inner), file.requests) else old(inner)
    {
      if !hasStatePath {
        return Ok(0);
      }
      match file {
        case Missing => return Ok(0);
        case Unreadable => return Err(Io);
        case Malformed => return Err(MalformedState);
        case Saved(requests) =>
          var count := |requests|;
          var i := 0;
          assert requests[0..] == requests;
          while i < |requests|
            invariant i <= |requests| && Valid()
            invariant Loaded(urls, inner, requests[i..]) == Loaded(urls, old(inner), requests)
          {
            var req := requests[i];
            assert requests[i..][1..] == requests[i + 1..];
            i := i + 1;
            var kind := ParseKind(req.kind);
            if kind.None? {
              continue;
            }
            var url := urls.parse(req.url);
            if url.None? {
              continue;
            }
            inner := inner[req.name := Entry(Service(req.name, kind.value, url.value), Pinned)];
          }
          return Ok(count);
      }
    }

    method Register(req: RegisterRequest, now: Instant, disk: Disk) returns (r: Result<(), BrokerError>)
      requires Valid()
      modifies this
      ensures Valid()
      ensures inner == Registered(urls, old(inner), req, now, ttl)
      ensures r == if ParseService(urls, req).Err? then Err(ParseService(urls, req).error)
                   else if hasStatePath && !disk.Works() then Err(Io) else Ok(())
      ensures r.Ok? && hasStatePath ==> file.Saved? && IsSnapshot(file.requests, inner)
      ensures r.Err? || !hasStatePath ==> file == old(file)
      ensures if ParseService(urls, req).Ok? then Leftover(disk, old(tmp)) else tmp == old(tmp)
    {
      var kind := ParseKind(req.kind);
      if kind.None? {
        return Err(UnknownKind);
      }
      var url := urls.parse(req.url);
      if url.None? {
        return Err(InvalidUrl);
      }
      var lifetime := match req.persistent
        case Some(true) => Pinned
        case _ => Ephemeral(now + ttl);
      inner := inner[req.name := Entry(Service(req.name, kind.value, url.value), lifetime)];
      r := Persist(disk);
    }

    method Remove(name: string, disk: Disk) returns (r: Result<bool, BrokerError>)
      requires Valid()
      modifies this
      ensures Valid()
      ensures inner == old(inner) - {name}
      ensures r == if name !in old(inner) then Ok(false)
                   else if hasStatePath && !disk.Works() then Err(Io) else Ok(true)
      ensures r == Ok(true) && hasStatePath ==> file.Saved? && IsSnapshot(file.requests, inner)
      ensures r != Ok(true) || !hasStatePath ==> file == old(file)
      ensures if name in old(inner) then Leftover(disk, old(tmp)) else tmp == old(tmp)
    {
      if name !in inner {
        assert inner - {name} == inner;
        return Ok(false);
      }
      inner := inner - {name};
      var saved := Persist(disk);
      return if saved.Err? then Err(saved.error) else Ok(true);
    }

    /** Copies the pinned entries, writes the temporary file, renames it. */
    method Persist(disk: Disk) returns (r: Result<(), BrokerError>)
      requires Valid()
      modifies this`tmp, this`file
      ensures Valid()
      ensures r == if hasStatePath && !disk.Works() then Err(Io) else Ok(())
      ensures r.Ok? && hasStatePath ==> file.Saved? && IsSnapshot(file.requests, inner) && tmp.Missing?
      ensures r.Err? || !hasStatePath ==> file == old(file)
      ensures Leftover(disk, old(tmp))
    {
      if !hasStatePath {
        return Ok(());
      }
      var requests := Pin(inner, urls);
      if !disk.mkdir {
        return Err(Io);
      }
      if !disk.write {
        return Err(Io);
      }
      tmp := Saved(requests);
      if !disk.rename {
        return Err(Io);
      }
      file := tmp;
      tmp := Missing;
      return Ok(());
    }

    method List(now: Instant) returns (services: seq<(Service, bool)>)
      requires Valid()
      ensures forall s, p :: (s, p) in services <==>
        s.name in inner && inner[s.name].service == s && inner[s.name].lifetime.IsLive(now)
        && p == inner[s.name].lifetime.Pinned?
      ensures forall i, j :: 0 <= i < j < |services| ==> services[i].0.name != services[j].0.name
    {
      services := [];
      var names := inner.Keys;
      while names != {}
        invariant names <= inner.Keys
        invariant forall s, p :: (s, p) in services <==>
          s.name in inner.Keys - names && inner[s.name].service == s && inner[s.name].lifetime.IsLive(now)
          && p == inner[s.name].lifetime.Pinned?
        invariant forall i :: 0 <= i < |services| ==> services[i].0.name in inner.Keys - names
        invariant forall i, j :: 0 <= i < j < |services| ==> services[i].0.name != services[j].0.name
        decreases |names|
      {
        var name :| name in names;
        names := names - {name};
        var e := inner[name];
        if e.lifetime.IsLive(now) {
          services := services + [(e.service, e.lifetime.Pinned?)];
        }
      }
    }
  }

  /** The values of the map that are pinned, as requests, in some order. */
  method Pin(r: Registry, ghost urls: Urls.Parser) returns (requests: seq<RegisterRequest>)
    requires Sound(urls, r)
    ensures IsSnapshot(requests, r)
  {
    requests := [];
    var names := r.Keys;
    while names != {}
      invariant names <= r.Keys
      invariant DistinctNames(requests)
      invariant forall req :: req in requests ==>
        req.name in r.Keys - names && r[req.name].lifetime.Pinned? && req == RequestOf(r[req.name].service)
      invariant forall name :: name in PinnedPart(r) && name !in names ==> RequestOf(r[name].service) in requests
      decreases |names|
    {
      var name :| name in names;
      names := names - {name};
      if r[name].lifetime.Pinned? {
        requests := requests + [RequestOf(r[name].service)];
      }
    }
  }

  // ---- Restoring --------------------------------------------------------------------

  lemma {:induction false} LoadedEntries(urls: Urls.Parser, r: Registry, requests: seq<RegisterRequest>, base: Registry)
    requires Sound(urls, r) && DistinctNames(requests)
    requires forall req :: req in requests ==>
      req.name in r && r[req.name].lifetime.Pinned? && req == RequestOf(r[req.name].service)
    ensures forall req :: req in requests ==>
      req.name in Loaded(urls, base, requests) && Loaded(urls, base, requests)[req.name] == r[req.name]
    ensures forall name :: (forall req :: req in requests ==> req.name != name) ==>
      (name in Loaded(urls, base, requests) <==> name in base) &&
      (name in base ==> Loaded(urls, base, requests)[name] == base[name])
    decreases |requests|
  {
    if requests != [] {
      var req, rest := requests[0], requests[1..];
      assert requests == [req] + rest;
      assert forall i :: 0 <= i < |rest| ==> rest[i] == requests[i + 1];
      assert req in requests && ParseService(urls, req) == Ok(r[req.name].service);
      var base' := base[req.name := Entry(r[req.name].service, Pinned)];
      LoadedEntries(urls, r, rest, base');
      assert forall later :: later in rest ==> later.name != req.name;
      assert r[req.name] == Entry(r[req.name].service, Pinned);
    }
  }

  /** The service of the last entry for a name that parses; entries that do not are passed over. */
  function LastGood(urls: Urls.Parser, requests: seq<RegisterRequest>, name: string): Option<Service> {
    if requests == [] then None
    else
      var n := |requests| - 1;
      if requests[n].name == name && ParseService(urls, requests[n]).Ok? then Some(ParseService(urls, requests[n]).value)
      else LastGood(urls, requests[..n], name)
  }

  lemma {:induction false} LoadedLast(urls: Urls.Parser, base: Registry, requests: seq<RegisterRequest>,
                                      last: RegisterRequest)
    ensures Loaded(urls, base, requests + [last]) ==
      (var r := Loaded(urls, base, requests);
       var service := ParseService(urls, last);
       if service.Ok? then r[last.name := Entry(service.value, Pinned)] else r)
    decreases |requests|
  {
    if requests == [] {
      assert requests + [last] == [last] && [last][1..] == [];
    } else {
      assert (requests + [last])[0] == requests[0] && (requests + [last])[1..] == requests[1..] + [last];
      var service := ParseService(urls, requests[0]);
      LoadedLast(urls, if service.Ok? then base[requests[0].name := Entry(service.value, Pinned)] else base,
                 requests[1..], last);
    }
  }

  /** Whatever a state file holds, the last entry for each name that parses is loaded, pinned, and the rest stays. */
  lemma {:induction false} LoadedIff(urls: Urls.Parser, base: Registry, requests: seq<RegisterRequest>, name: string)
    ensures var loaded, good := Loaded(urls, base, requests), LastGood(urls, requests, name);
      && (name in loaded <==> good.Some? || name in base)
      && (name in loaded ==> loaded[name] == if good.Some? then Entry(good.value, Pinned) else base[name])
    decreases |requests|
  {
    if requests != [] {
      var front, last := requests[..|requests| - 1], requests[|requests| - 1];
      assert requests == front + [last];
      LoadedLast(urls, base, front, last);
      LoadedIff(urls, base, front, name);
    }
  }

  /** Loading a snapshot into an empty registry restores exactly the pinned entries. */
  lemma RestoresPinned(urls: Urls.Parser, r: Registry, requests: seq<RegisterRequest>)
    requires Sound(urls, r) && IsSnapshot(requests, r)
    ensures Loaded(urls, map[], requests) == PinnedPart(r)
  {
    var loaded := Loaded(urls, map[], requests);
    LoadedEntries(urls, r, requests, map[]);
    forall name ensures name in loaded <==> name in PinnedPart(r) {
      if name in PinnedPart(r) {
        assert RequestOf(r[name].service) in requests;
      }
    }
    forall name | name in loaded ensures loaded[name] == PinnedPart(r)[name] {
      var req :| req in requests && req.name == name;
    }
  }

  /** When calls do not overlap and the disk works, a restarted store has exactly the pinned entries. */
  method RestartAfterRegister(store: ServiceStore, req: RegisterRequest, now: Instant, disk: Disk)
    returns (restarted: ServiceStore)
    requires store.Valid() && store.hasStatePath && disk.Works() && ParseService(store.urls, req).Ok?
    modifies store
    ensures store.inner == Registered(store.urls, old(store.inner), req, now, store.ttl)
    ensures fresh(restarted) && restarted.inner == PinnedPart(store.inner)
  {
    var registered := store.Register(req, now, disk);
    restarted := new ServiceStore(store.urls, store.ttl, true, store.tmp, store.file);
    var loaded := restarted.LoadState();
    RestoresPinned(store.urls, store.inner, store.file.requests);
  }

  // ---- Interleaved calls ------------------------------------------------------------

  /** Where a call is: it has changed the registry, copied it, or written the temporary file. */
  datatype Progress = Changed | Copied(requests: seq<RegisterRequest>) | Written

  datatype System = System(inner: Registry, tmp: FileState, file: FileState, calls: map<nat, Progress>)

  datatype Step =
    | RegisterStep(call: nat, req: RegisterRequest, now: Instant)
    | RemoveStep(call: nat, name: string)
    | CopyStep(call: nat, requests: seq<RegisterRequest>)
    | WriteStep(call: nat, works: bool)
    | RenameStep(call: nat, works: bool)
    | RestartStep

  function Finished(s: System, call: nat): System {
    s.(calls := s.calls - {call})
  }

  /** One atomic step; a step that its call is not ready for does nothing. */
  ghost function Next(urls: Urls.Parser, ttl: int, s: System, step: Step): System {
    match step
    case RegisterStep(call, req, now) =>
      if call in s.calls || ParseService(urls, req).Err? then s
      else s.(inner := Registered(urls, s.inner, req, now, ttl), calls := s.calls[call := Changed])
    case RemoveStep(call, name) =>
      if call in s.calls || name !in s.inner then s
      else s.(inner := s.inner - {name}, calls := s.calls[call := Changed])
    case CopyStep(call, requests) =>
      if call in s.calls && s.calls[call] == Changed && IsSnapshot(requests, s.inner)
      then s.(calls := s.calls[call := Copied(requests)]) else s
    case WriteStep(call, works) =>
      if call in s.calls && s.calls[call].Copied? then
        if works then s.(tmp := Saved(s.calls[call].requests), calls := s.calls[call := Written])
        else Finished(s, call)
      else s
    case RenameStep(call, works) =>
      if call in s.calls && s.calls[call] == Written then
        if works && !s.tmp.Missing? then Finished(s.(file := s.tmp, tmp := Missing), call)
        else Finished(s, call)
      else s
    case RestartStep =>
      System(Restored(urls, s.file), s.tmp, s.file, map[])
  }

  function Restored(urls: Urls.Parser, file: FileState): Registry {
    if file.Saved? then Loaded(urls, map[], file.requests) else map[]
  }

  ghost function StateAt(urls: Urls.Parser, ttl: int, run: seq<Step>, n: nat): System
    requires n <= |run|
  {
    if n == 0 then System(map[], Missing, Missing, map[])
    else Next(urls, ttl, StateAt(urls, ttl, run, n - 1), run[n - 1])
  }

  lemma {:induction false} LoadedIsSound(urls: Urls.Parser, r: Registry, requests: seq<RegisterRequest>)
    requires urls.Stable() && Sound(urls, r)
    ensures Sound(urls, Loaded(urls, r, requests))
    decreases |requests|
  {
    if requests != [] {
      var req := requests[0];
      var r' := match ParseService(urls, req)
        case Err(_) => r
        case Ok(service) => r[req.name := Entry(service, Pinned)];
      LoadedIsSound(urls, r', requests[1..]);
    }
  }

  lemma {:induction false} EveryStateIsSound(urls: Urls.Parser, ttl: int, run: seq<Step>, n: nat)
    requires urls.Stable() && n <= |run|
    ensures Sound(urls, StateAt(urls, ttl, run, n).inner)
  {
    if n > 0 {
      EveryStateIsSound(urls, ttl, run, n - 1);
      var file := StateAt(urls, ttl, run, n - 1).file;
      LoadedIsSound(urls, map[], if file.Saved? then file.requests else []);
    }
  }

  ghost function Saving(urls: Urls.Parser, ttl: int, s: System, call: nat, requests: seq<RegisterRequest>,
                        write: bool, rename: bool): System
  {
    var copied := Next(urls, ttl, s, CopyStep(call, requests));
    Next(urls, ttl, Next(urls, ttl, copied, WriteStep(call, write)), RenameStep(call, rename))
  }

  /** A change of the registry while no other call is in progress, and then its save: what a method call does. */
  ghost predicate Saves(s: System, r: Registry, requests: seq<RegisterRequest>, write: bool, rename: bool, after: System) {
    && after.inner == r && after.calls == map[]
    && (write && rename ==> after.file == Saved(requests) && after.tmp == Missing)
    && (write && !rename ==> after.file == s.file && after.tmp == Saved(requests))
    && (!write ==> after.file == s.file && after.tmp == s.tmp)
  }

  lemma SavingIs(urls: Urls.Parser, ttl: int, s: System, call: nat, requests: seq<RegisterRequest>, write: bool, rename: bool)
    requires s.calls == map[call := Changed] && IsSnapshot(requests, s.inner)
    ensures Saves(s, s.inner, requests, write, rename, Saving(urls, ttl, s, call, requests, write, rename))
  {
    var copied := Next(urls, ttl, s, CopyStep(call, requests));
    assert copied.calls == map[call := Copied(requests)];
    var written := Next(urls, ttl, copied, WriteStep(call, write));
    if write {
      assert written.calls == map[call := Written];
    } else {
      assert written.calls == map[];
    }
  }

  /** One call's steps, with none of another call's between them, do what `Register` does; a refused one does nothing. */
  lemma RegisterIsSteps(urls: Urls.Parser, ttl: int, s: System, call: nat, req: RegisterRequest, now: Instant,
                        requests: seq<RegisterRequest>, write: bool, rename: bool)
    requires s.calls == map[] && IsSnapshot(requests, Registered(urls, s.inner, req, now, ttl))
    ensures var changed := Next(urls, ttl, s, RegisterStep(call, req, now));
      if ParseService(urls, req).Err? then changed == s
      else Saves(s, Registered(urls, s.inner, req, now, ttl), requests, write, rename,
                 Saving(urls, ttl, changed, call, requests, write, rename))
  {
    var changed := Next(urls, ttl, s, RegisterStep(call, req, now));
    if ParseService(urls, req).Ok? {
      assert changed.calls == map[call := Changed];
      SavingIs(urls, ttl, changed, call, requests, write, rename);
    }
  }

  /** The same for `Remove`; removing an unknown name does nothing. */
  lemma RemoveIsSteps(urls: Urls.Parser, ttl: int, s: System, call: nat, name: string,
                      requests: seq<RegisterRequest>, write: bool, rename: bool)
    requires s.calls == map[] && IsSnapshot(requests, s.inner - {name})
    ensures var changed := Next(urls, ttl, s, RemoveStep(call, name));
      if name !in s.inner then changed == s
      else Saves(s, s.inner - {name}, requests, write, rename,
                 Saving(urls, ttl, changed, call, requests, write, rename))
  {
    var changed := Next(urls, ttl, s, RemoveStep(call, name));
    if name in s.inner {
      assert changed.calls == map[call := Changed];
      SavingIs(urls, ttl, changed, call, requests, write, rename);
    }
  }

  // ---- Which copy the files hold ----------------------------------------------------

  /** When each call's copy, the copy in the temporary file and the one in the state file were taken. */
  datatype Marks = Marks(copies: map<nat, nat>, tmp: Option<nat>, file: Option<nat>)

  ghost predicate Copies(s: System, step: Step) {
    && step.CopyStep? && step.call in s.calls && s.calls[step.call] == Changed
    && IsSnapshot(step.requests, s.inner)
  }

  predicate Writes(s: System, step: Step) {
    step.WriteStep? && step.works && step.call in s.calls && s.calls[step.call].Copied?
  }

  /** A rename that succeeds moves whatever the temporary file holds. */
  predicate Moves(s: System, step: Step) {
    step.RenameStep? && step.works && step.call in s.calls && s.calls[step.call] == Written && !s.tmp.Missing?
  }

  ghost function MarksAt(urls: Urls.Parser, ttl: int, run: seq<Step>, n: nat): Marks
    requires n <= |run|
  {
    if n == 0 then Marks(map[], None, None)
    else MarksAfter(MarksAt(urls, ttl, run, n - 1), StateAt(urls, ttl, run, n - 1), run[n - 1], n - 1)
  }

  ghost function MarksAfter(m: Marks, s: System, step: Step, k: nat): Marks {
    if Copies(s, step) then m.(copies := m.copies[step.call := k])
    else if Writes(s, step) then m.(tmp := if step.call in m.copies then Some(m.copies[step.call]) else None)
    else if Moves(s, step) then m.(tmp := None, file := m.tmp)
    else m
  }

  /** Step `k` of the run copied exactly these requests. */
  ghost predicate CopiedAt(urls: Urls.Parser, ttl: int, run: seq<Step>, k: nat, requests: seq<RegisterRequest>) {
    && k < |run| && run[k].CopyStep? && run[k].requests == requests
    && IsSnapshot(requests, StateAt(urls, ttl, run, k).inner)
  }

  ghost predicate Holds(urls: Urls.Parser, ttl: int, run: seq<Step>, file: FileState, mark: Option<nat>) {
    if mark.Some? then file.Saved? && CopiedAt(urls, ttl, run, mark.value, file.requests) else file.Missing?
  }

  ghost predicate Marked(urls: Urls.Parser, ttl: int, run: seq<Step>, s: System, m: Marks) {
    && Holds(urls, ttl, run, s.tmp, m.tmp)
    && Holds(urls, ttl, run, s.file, m.file)
    && forall call :: call in s.calls && s.calls[call].Copied? ==>
         call in m.copies && CopiedAt(urls, ttl, run, m.copies[call], s.calls[call].requests)
  }

  lemma StepIsMarked(urls: Urls.Parser, ttl: int, run: seq<Step>, s: System, m: Marks, k: nat)
    requires k < |run| && s == StateAt(urls, ttl, run, k) && Marked(urls, ttl, run, s, m)
    ensures Marked(urls, ttl, run, Next(urls, ttl, s, run[k]), MarksAfter(m, s, run[k], k))
  {
    match run[k] {
      case CopyStep(call, requests) =>
        assert Copies(s, run[k]) ==> CopiedAt(urls, ttl, run, k, requests);
      case _ =>
    }
  }

  /** In every reachable state, each copy in flight and each file is what its mark says. */
  lemma {:induction false} EveryStateIsMarked(urls: Urls.Parser, ttl: int, run: seq<Step>, n: nat)
    requires n <= |run|
    ensures Marked(urls, ttl, run, StateAt(urls, ttl, run, n), MarksAt(urls, ttl, run, n))
  {
    if n > 0 {
      EveryStateIsMarked(urls, ttl, run, n - 1);
      StepIsMarked(urls, ttl, run, StateAt(urls, ttl, run, n - 1), MarksAt(urls, ttl, run, n - 1), n - 1);
    }
  }

  lemma {:induction false} MarksArePast(urls: Urls.Parser, ttl: int, run: seq<Step>, n: nat)
    requires n <= |run|
    ensures var m := MarksAt(urls, ttl, run, n);
      && (m.file.Some? ==> m.file.value < n) && (m.tmp.Some? ==> m.tmp.value < n)
      && forall call :: call in m.copies ==> m.copies[call] < n
  {
    if n > 0 {
      MarksArePast(urls, ttl, run, n - 1);
    }
  }

  /** When the copy in the state file was taken: the one that the last successful rename moved. */
  ghost function FileMark(urls: Urls.Parser, ttl: int, run: seq<Step>, n: nat): (mark: Option<nat>)
    requires n <= |run|
    ensures mark.Some? ==> mark.value < n
  {
    MarksArePast(urls, ttl, run, n);
    MarksAt(urls, ttl, run, n).file
  }

  ghost function PinnedAt(urls: Urls.Parser, ttl: int, run: seq<Step>, mark: Option<nat>): Registry
    requires mark.Some? ==> mark.value <= |run|
  {
    if mark.Some? then PinnedPart(StateAt(urls, ttl, run, mark.value).inner) else map[]
  }

  /**
   However calls interleave, fail, and are cut off by restarts, the state file restores
   exactly the registry that the copy moved by the last successful rename was taken from,
   and nothing when no rename has succeeded.
   */
  lemma FileRestoresItsCopy(urls: Urls.Parser, ttl: int, run: seq<Step>, n: nat)
    requires urls.Stable() && n <= |run|
    ensures var mark, file := FileMark(urls, ttl, run, n), StateAt(urls, ttl, run, n).file;
      && (mark.Some? ==> run[mark.value].CopyStep?)
      && Restored(urls, file) == PinnedAt(urls, ttl, run, mark)
  {
    var mark, file := FileMark(urls, ttl, run, n), StateAt(urls, ttl, run, n).file;
    EveryStateIsMarked(urls, ttl, run, n);
    if mark.Some? {
      assert CopiedAt(urls, ttl, run, mark.value, file.requests);
      EveryStateIsSound(urls, ttl, run, mark.value);
      RestoresPinned(urls, StateAt(urls, ttl, run, mark.value).inner, file.requests);
    }
  }

  /** A restart restores the current pinned entries exactly when they are those of that copy. */
  lemma RestartRestoresIff(urls: Urls.Parser, ttl: int, run: seq<Step>, n: nat)
    requires urls.Stable() && n <= |run|
    ensures var s, mark := StateAt(urls, ttl, run, n), FileMark(urls, ttl, run, n);
      Restored(urls, s.file) == PinnedPart(s.inner) <==> PinnedAt(urls, ttl, run, mark) == PinnedPart(s.inner)
  {
    FileRestoresItsCopy(urls, ttl, run, n);
  }

  /** Steps that may change what is registered under a name. */
  predicate Touches(step: Step, name: string) {
    || (step.RegisterStep? && step.req.name == name)
    || (step.RemoveStep? && step.name == name)
    || step.RestartStep?
  }

  ghost predicate Registers(urls: Urls.Parser, ttl: int, run: seq<Step>, t: nat)
    requires t < |run|
  {
    && run[t].RegisterStep? && run[t].req.persistent == Some(true)
    && run[t].call !in StateAt(urls, ttl, run, t).calls && ParseService(urls, run[t].req).Ok?
  }

  ghost predicate Has(r: Registry, name: string, e: Entry) {
    name in r && r[name] == e
  }

  lemma {:induction false} EntryIsKept(urls: Urls.Parser, ttl: int, run: seq<Step>, t: nat, n: nat)
    requires t < n <= |run| && Registers(urls, ttl, run, t)
    requires forall k :: t < k < n ==> !Touches(run[k], run[t].req.name)
    ensures Has(StateAt(urls, ttl, run, n).inner, run[t].req.name, Entry(ParseService(urls, run[t].req).value, Pinned))
  {
    if t < n - 1 {
      EntryIsKept(urls, ttl, run, t, n - 1);
      assert !Touches(run[n - 1], run[t].req.name);
    }
  }

  /**
   A pinned registration that nothing has touched since survives a restart exactly when the
   copy in the state file was taken after it, or already had that very entry.
   */
  lemma RegistrationSurvivesIff(urls: Urls.Parser, ttl: int, run: seq<Step>, t: nat, n: nat)
    requires urls.Stable() && t < n <= |run| && Registers(urls, ttl, run, t)
    requires forall k :: t < k < n ==> !Touches(run[k], run[t].req.name)
    ensures var name, e := run[t].req.name, Entry(ParseService(urls, run[t].req).value, Pinned);
      var mark := FileMark(urls, ttl, run, n);
      Has(Restored(urls, StateAt(urls, ttl, run, n).file), name, e) <==>
      mark.Some? && (t < mark.value || Has(StateAt(urls, ttl, run, mark.value).inner, name, e))
  {
    var mark := FileMark(urls, ttl, run, n);
    FileRestoresItsCopy(urls, ttl, run, n);
    if mark.Some? && t < mark.value {
      EntryIsKept(urls, ttl, run, t, mark.value);
    }
  }

  ghost predicate Removes(urls: Urls.Parser, ttl: int, run: seq<Step>, t: nat)
    requires t < |run|
  {
    var s := StateAt(urls, ttl, run, t);
    run[t].RemoveStep? && run[t].call !in s.calls && run[t].name in s.inner
  }

  lemma {:induction false} RemovalIsKept(urls: Urls.Parser, ttl: int, run: seq<Step>, t: nat, n: nat)
    requires t < n <= |run| && Removes(urls, ttl, run, t)
    requires forall k :: t < k < n ==> !Touches(run[k], run[t].name)
    ensures run[t].name !in StateAt(urls, ttl, run, n).inner
  {
    if t < n - 1 {
      RemovalIsKept(urls, ttl, run, t, n - 1);
      assert !Touches(run[n - 1], run[t].name);
    }
  }

  /**
   A removal that nothing has touched since survives a restart exactly when no copy is in the
   state file, or that copy was taken after the removal, or did not have the service pinned.
   */
  lemma RemovalSurvivesIff(urls: Urls.Parser, ttl: int, run: seq<Step>, t: nat, n: nat)
    requires urls.Stable() && t < n <= |run| && Removes(urls, ttl, run, t)
    requires forall k :: t < k < n ==> !Touches(run[k], run[t].name)
    ensures var name, mark := run[t].name, FileMark(urls, ttl, run, n);
      name !in Restored(urls, StateAt(urls, ttl, run, n).file) <==>
      mark.None? || t < mark.value || name !in PinnedPart(StateAt(urls, ttl, run, mark.value).inner)
  {
    var mark := FileMark(urls, ttl, run, n);
    FileRestoresItsCopy(urls, ttl, run, n);
    if mark.Some? && t < mark.value {
      RemovalIsKept(urls, ttl, run, t, mark.value);
    }
  }

  lemma LastWriterMarks(urls: Urls.Parser, ttl: int, run: seq<Step>, n: nat, call: nat)
    requires n + 2 <= |run| && run[n] == WriteStep(call, true) && run[n + 1] == RenameStep(call, true)
    requires var s := StateAt(urls, ttl, run, n); call in s.calls && s.calls[call].Copied?
    requires call in MarksAt(urls, ttl, run, n).copies
    ensures FileMark(urls, ttl, run, n + 2) == Some(MarksAt(urls, ttl, run, n).copies[call])
  {
    var s, s' := StateAt(urls, ttl, run, n), StateAt(urls, ttl, run, n + 1);
    var m, m' := MarksAt(urls, ttl, run, n), MarksAt(urls, ttl, run, n + 1);
    Unroll(urls, ttl, run, n + 1, s);
    assert m' == MarksAfter(m, s, run[n], n);
    assert MarksAt(urls, ttl, run, n + 2) == MarksAfter(m', s', run[n + 1], n + 1);
  }

  /** The last writer wins: a call that copied before a registration and writes after it erases it. */
  lemma LateWriterErases(urls: Urls.Parser, ttl: int, run: seq<Step>, t: nat, n: nat, call: nat)
    requires urls.Stable() && n + 2 <= |run| && run[n] == WriteStep(call, true) && run[n + 1] == RenameStep(call, true)
    requires var s := StateAt(urls, ttl, run, n); call in s.calls && s.calls[call].Copied?
    requires t < n && Registers(urls, ttl, run, t) && forall k :: t < k < n ==> !Touches(run[k], run[t].req.name)
    requires var copies := MarksAt(urls, ttl, run, n).copies;
      call in copies && copies[call] <= t && run[t].req.name !in StateAt(urls, ttl, run, copies[call]).inner
    ensures run[t].req.name in PinnedPart(StateAt(urls, ttl, run, n + 2).inner)
    ensures run[t].req.name !in Restored(urls, StateAt(urls, ttl, run, n + 2).file)
  {
    LastWriterMarks(urls, ttl, run, n, call);
    FileRestoresItsCopy(urls, ttl, run, n + 2);
    EntryIsKept(urls, ttl, run, t, n + 2);
  }

  // ---- Calls one after another, and two at once -------------------------------------

  /** Changes start only when no call is in progress, and the disk works. */
  ghost predicate Serial(urls: Urls.Parser, ttl: int, run: seq<Step>) {
    forall k :: 0 <= k < |run| ==>
      match run[k]
      case RegisterStep(_, _, _) => StateAt(urls, ttl, run, k).calls == map[]
      case RemoveStep(_, _) => StateAt(urls, ttl, run, k).calls == map[]
      case WriteStep(_, works) => works
      case RenameStep(_, works) => works
      case _ => true
  }

  ghost predicate Orderly(urls: Urls.Parser, s: System) {
    && (s.calls == map[] ==> Restored(urls, s.file) == PinnedPart(s.inner))
    && (forall call :: call in s.calls ==> s.calls == map[call := s.calls[call]])
    && (forall call :: call in s.calls && s.calls[call].Copied? ==> IsSnapshot(s.calls[call].requests, s.inner))
    && (forall call :: call in s.calls && s.calls[call].Written? ==>
         s.tmp.Saved? && IsSnapshot(s.tmp.requests, s.inner))
  }

  lemma {:induction false} LoadedIsPinned(urls: Urls.Parser, r: Registry, requests: seq<RegisterRequest>)
    requires PinnedPart(r) == r
    ensures PinnedPart(Loaded(urls, r, requests)) == Loaded(urls, r, requests)
    decreases |requests|
  {
    if requests != [] {
      var req := requests[0];
      var r' := match ParseService(urls, req)
        case Err(_) => r
        case Ok(service) => r[req.name := Entry(service, Pinned)];
      forall name | name in r' ensures r'[name].lifetime.Pinned? {
        assert name != req.name ==> name in PinnedPart(r);
      }
      assert PinnedPart(r') == r';
      LoadedIsPinned(urls, r', requests[1..]);
    }
  }

  lemma StepIsOrderly(urls: Urls.Parser, ttl: int, s: System, step: Step)
    requires Sound(urls, s.inner) && Orderly(urls, s)
    requires step.RegisterStep? || step.RemoveStep? ==> s.calls == map[]
    requires step.WriteStep? || step.RenameStep? ==> step.works
    ensures Orderly(urls, Next(urls, ttl, s, step))
  {
    match step {
      case RenameStep(call, _) =>
        if call in s.calls && s.calls[call] == Written {
          RestoresPinned(urls, s.inner, s.tmp.requests);
          assert s.calls - {call} == map[];
        }
      case RestartStep => LoadedIsPinned(urls, map[], if s.file.Saved? then s.file.requests else []);
      case _ =>
    }
  }

  lemma {:induction false} SerialIsOrderly(urls: Urls.Parser, ttl: int, run: seq<Step>, n: nat)
    requires urls.Stable() && Serial(urls, ttl, run) && n <= |run|
    ensures Orderly(urls, StateAt(urls, ttl, run, n))
  {
    if n == 0 {
      assert PinnedPart(map[]) == map[];
    } else {
      SerialIsOrderly(urls, ttl, run, n - 1);
      EveryStateIsSound(urls, ttl, run, n - 1);
      StepIsOrderly(urls, ttl, StateAt(urls, ttl, run, n - 1), run[n - 1]);
    }
  }

  /** When calls do not overlap and the disk works, a restart between calls restores exactly the pinned entries. */
  lemma SerialRestartsRestore(urls: Urls.Parser, ttl: int, run: seq<Step>, n: nat)
    requires urls.Stable() && Serial(urls, ttl, run) && n <= |run|
    requires StateAt(urls, ttl, run, n).calls == map[]
    ensures var s := StateAt(urls, ttl, run, n);
      Next(urls, ttl, s, RestartStep).inner == PinnedPart(s.inner)
  {
    SerialIsOrderly(urls, ttl, run, n);
  }

  lemma Unroll(urls: Urls.Parser, ttl: int, run: seq<Step>, n: nat, before: System)
    requires 0 < n <= |run| && StateAt(urls, ttl, run, n - 1) == before
    ensures StateAt(urls, ttl, run, n) == Next(urls, ttl, before, run[n - 1])
  {
  }

  /** Two calls register `a` and `b`; the one that copied first writes last. */
  function LosingRun(a: Service, b: Service): seq<Step> {
    [RegisterStep(0, RequestOf(a), 0), CopyStep(0, [RequestOf(a)]),
     RegisterStep(1, RequestOf(b), 0), CopyStep(1, [RequestOf(a), RequestOf(b)]),
     WriteStep(1, true), RenameStep(1, true), WriteStep(0, true), RenameStep(0, true)]
  }

  function OnlyFirst(a: Service): Registry {
    map[a.name := Entry(a, Pinned)]
  }

  function Both(a: Service, b: Service): Registry {
    map[a.name := Entry(a, Pinned), b.name := Entry(b, Pinned)]
  }

  ghost predicate Registrable(urls: Urls.Parser, a: Service, b: Service) {
    urls.parse(a.url) == Some(a.url) && urls.parse(b.url) == Some(b.url) && a.name != b.name
  }

  lemma SnapshotOfBoth(a: Service, b: Service)
    requires a.name != b.name
    ensures IsSnapshot([RequestOf(a), RequestOf(b)], Both(a, b))
  {
    var ra, rb := RequestOf(a), RequestOf(b);
    assert [ra, rb][0] == ra && [ra, rb][1] == rb;
  }

  lemma LosingRunTwo(urls: Urls.Parser, ttl: int, a: Service, b: Service)
    requires Registrable(urls, a, b)
    ensures StateAt(urls, ttl, LosingRun(a, b), 2)
         == System(OnlyFirst(a), Missing, Missing, map[0 := Copied([RequestOf(a)])])
  {
    var run := LosingRun(a, b);
    Unroll(urls, ttl, run, 1, System(map[], Missing, Missing, map[]));
    Unroll(urls, ttl, run, 2, System(OnlyFirst(a), Missing, Missing, map[0 := Changed]));
  }

  lemma LosingRunFour(urls: Urls.Parser, ttl: int, a: Service, b: Service)
    requires Registrable(urls, a, b)
    ensures StateAt(urls, ttl, LosingRun(a, b), 4)
         == System(Both(a, b), Missing, Missing,
                   map[0 := Copied([RequestOf(a)]), 1 := Copied([RequestOf(a), RequestOf(b)])])
  {
    var run, ra := LosingRun(a, b), RequestOf(a);
    LosingRunTwo(urls, ttl, a, b);
    Unroll(urls, ttl, run, 3, System(OnlyFirst(a), Missing, Missing, map[0 := Copied([ra])]));
    SnapshotOfBoth(a, b);
    Unroll(urls, ttl, run, 4, System(Both(a, b), Missing, Missing, map[0 := Copied([ra]), 1 := Changed]));
  }

  lemma LosingRunSix(urls: Urls.Parser, ttl: int, a: Service, b: Service)
    requires Registrable(urls, a, b)
    ensures StateAt(urls, ttl, LosingRun(a, b), 6)
         == System(Both(a, b), Missing, Saved([RequestOf(a), RequestOf(b)]), map[0 := Copied([RequestOf(a)])])
  {
    var run, ra, rb := LosingRun(a, b), RequestOf(a), RequestOf(b);
    LosingRunFour(urls, ttl, a, b);
    Unroll(urls, ttl, run, 5, System(Both(a, b), Missing, Missing, map[0 := Copied([ra]), 1 := Copied([ra, rb])]));
    Unroll(urls, ttl, run, 6, System(Both(a, b), Saved([ra, rb]), Missing, map[0 := Copied([ra]), 1 := Written]));
  }

  /** It happens: for any two services there is such a run, and both registrations succeed in it. */
  lemma OverlapLosesARegistration(urls: Urls.Parser, ttl: int, a: Service, b: Service)
    requires urls.Stable() && Registrable(urls, a, b)
    ensures var s := StateAt(urls, ttl, LosingRun(a, b), 8);
      && s.calls == map[]
      && b.name in PinnedPart(s.inner)
      && b.name !in Restored(urls, s.file)
  {
    var run, ra, rb := LosingRun(a, b), RequestOf(a), RequestOf(b);
    LosingRunSix(urls, ttl, a, b);
    Unroll(urls, ttl, run, 7, System(Both(a, b), Missing, Saved([ra, rb]), map[0 := Copied([ra])]));
    Unroll(urls, ttl, run, 8, System(Both(a, b), Saved([ra]), Saved([ra, rb]), map[0 := Written]));
    RestoresPinned(urls, OnlyFirst(a), [ra]);
  }
}
