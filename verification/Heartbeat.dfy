/**
 The registration heartbeat of `ferridis-adapter-sdk/src/broker.rs` against the registry's
 time-to-live: register once, then again at every tick of a 240 s interval.

 The interval starts when the first registration returns, and a late tick fires at once
 (tokio's default). Timer and scheduling delays count as part of a round trip.
 */
module Heartbeat {
  import opened Wrappers
  import opened DiscoveryStore
  import Urls

  const HEARTBEAT_INTERVAL := 240_000
  const PROMPT := 30_000

  /**
   A registration request: how long until the broker handles it, from then until the loop
   goes on, and whether the broker registered it. The loop goes on after a failure too.
   */
  datatype Trip = Trip(out: nat, back: nat, handled: bool)

  datatype Beats = Beats(first: Instant, interval: nat, trips: nat -> Trip) {

    /** The loop starts only when the first registration has succeeded; a ticker needs an interval. */
    ghost predicate Running() {
      interval > 0 && trips(0).handled
    }

    /** The first registration has returned and the ticker starts. */
    function Started(): Instant {
      first + trips(0).out + trips(0).back
    }

    function Due(k: nat): Instant {
      if k == 0 then Started() else Due(k - 1) + interval
    }

    /** When the loop sends its `k`-th request: at its tick, or as soon as the one before returns. */
    function SendAt(k: nat): Instant
      decreases k, 0
    {
      if k == 0 then first
      else
        var ready := DoneAt(k - 1);
        if ready > Due(k) then ready else Due(k)
    }

    function HandledAt(k: nat): Instant {
      SendAt(k) + trips(k).out
    }

    function DoneAt(k: nat): Instant
      decreases k, 1
    {
      SendAt(k) + trips(k).out + trips(k).back
    }

    /** Less than the broker's time-to-live has passed since some registration. */
    ghost predicate Covered(t: Instant) {
      exists k: nat :: trips(k).handled && HandledAt(k) <= t < HandledAt(k) + DEFAULT_TTL
    }

    /** Another registration comes before this one has run out. */
    ghost predicate Renewed(k: nat) {
      exists j: nat :: j > k && trips(j).handled && HandledAt(j) <= HandledAt(k) + DEFAULT_TTL
    }

    ghost predicate KeepsUp() {
      forall k: nat :: trips(k).handled ==> Renewed(k)
    }

    ghost predicate AllHandled() {
      forall k: nat :: trips(k).handled
    }

    /** Every round trip takes less than `limit`. */
    ghost predicate Within(limit: nat) {
      forall k: nat :: trips(k).out + trips(k).back < limit
    }
  }

  /** The first `n` turns of the loop in `spawn_heartbeat`, which itself never ends. */
  method SpawnHeartbeat(b: Beats, n: nat) returns (sends: seq<Instant>)
    ensures |sends| == n
    ensures forall k :: 0 <= k < n ==> sends[k] == b.SendAt(k + 1)
  {
    sends := [];
    var now := b.Started();
    var deadline := b.Started();
    assert now == b.DoneAt(0);
    var k := 0;
    while k < n
      invariant k <= n && |sends| == k
      invariant now == b.DoneAt(k) && deadline == b.Due(k)
      invariant forall j :: 0 <= j < k ==> sends[j] == b.SendAt(j + 1)
    {
      deadline := deadline + b.interval;
      if now < deadline {
        now := deadline;
      }
      sends := sends + [now];
      k := k + 1;
      now := now + b.trips(k).out + b.trips(k).back;
    }
  }

  /**
   The ticks are the multiples of the interval after the start, whatever happens; a request is
   sent at its tick or, when the one before returns later than that, as soon as it returns.
   */
  lemma {:induction false} TicksAre(b: Beats, k: nat)
    ensures b.Due(k) == b.Started() + k * b.interval
    ensures k > 0 ==> b.SendAt(k) == if b.Due(k) < b.DoneAt(k - 1) then b.DoneAt(k - 1) else b.Due(k)
    ensures b.SendAt(0) == b.first && b.Started() == b.DoneAt(0)
    ensures b.HandledAt(k) == b.SendAt(k) + b.trips(k).out && b.DoneAt(k) == b.HandledAt(k) + b.trips(k).back
  {
    if k > 0 {
      TicksAre(b, k - 1);
      assert k * b.interval == (k - 1) * b.interval + b.interval;
    }
  }

  // ---- When every instant is covered ------------------------------------------------

  lemma {:induction false} BeatsAreOrdered(b: Beats, i: nat, j: nat)
    requires i <= j
    ensures b.HandledAt(i) <= b.HandledAt(j)
    decreases j
  {
    if i < j {
      BeatsAreOrdered(b, i, j - 1);
      assert b.DoneAt(j - 1) <= b.SendAt(j);
    }
  }

  lemma {:induction false} BeatsGoOn(b: Beats, k: nat)
    requires b.Running()
    ensures b.HandledAt(k) >= b.Due(k) - b.trips(0).back >= b.HandledAt(0) + k
  {
    if k > 0 {
      BeatsGoOn(b, k - 1);
    }
  }

  /** The last registration by `t`. */
  lemma LastHandled(b: Beats, t: Instant) returns (k: nat)
    requires b.Running() && b.HandledAt(0) <= t
    ensures b.trips(k).handled && b.HandledAt(k) <= t
    ensures forall j: nat :: j > k && b.trips(j).handled ==> t < b.HandledAt(j)
  {
    k := t - b.HandledAt(0) + 1;
    forall j: nat | j >= k
      ensures t < b.HandledAt(j)
    {
      BeatsGoOn(b, j);
    }
    while !(b.trips(k).handled && b.HandledAt(k) <= t)
      invariant forall j: nat :: j > k && b.trips(j).handled ==> t < b.HandledAt(j)
      decreases k
    {
      k := k - 1;
    }
  }

  /** Every instant from the first registration on is covered exactly when every registration is renewed in time. */
  lemma CoveredIff(b: Beats)
    requires b.Running()
    ensures (forall t :: b.HandledAt(0) <= t ==> b.Covered(t)) <==> b.KeepsUp()
  {
    if b.KeepsUp() {
      forall t | b.HandledAt(0) <= t
        ensures b.Covered(t)
      {
        var k := LastHandled(b, t);
        assert b.Renewed(k);
      }
    }
    if forall t :: b.HandledAt(0) <= t ==> b.Covered(t) {
      forall k: nat | b.trips(k).handled
        ensures b.Renewed(k)
      {
        BeatsAreOrdered(b, 0, k);
        var t := b.HandledAt(k) + DEFAULT_TTL;
        assert b.Covered(t);
        var j: nat :| b.trips(j).handled && b.HandledAt(j) <= t < b.HandledAt(j) + DEFAULT_TTL;
        if j <= k {
          BeatsAreOrdered(b, j, k);
        }
      }
    }
  }

  // ---- What that asks of the round trips --------------------------------------------

  /** Round trips shorter than the interval never make the loop miss a tick. */
  lemma {:induction false} KeepsPace(b: Beats, k: nat)
    requires b.Within(b.interval) && k > 0
    ensures b.SendAt(k) == b.Due(k)
  {
    assert b.trips(k - 1).out + b.trips(k - 1).back < b.interval;
    if k > 1 {
      KeepsPace(b, k - 1);
    }
  }

  /** How far apart consecutive requests are handled when no tick is missed. */
  lemma GapIs(b: Beats, k: nat)
    requires b.Within(b.interval)
    ensures k == 0 ==> b.HandledAt(1) == b.HandledAt(0) + b.trips(0).back + b.interval + b.trips(1).out
    ensures k > 0 ==> b.HandledAt(k + 1) + b.trips(k).out == b.HandledAt(k) + b.interval + b.trips(k + 1).out
  {
    KeepsPace(b, k + 1);
    if k > 0 {
      KeepsPace(b, k);
    }
  }

  lemma RenewedIff(b: Beats, k: nat)
    requires b.trips(k + 1).handled
    ensures b.Renewed(k) <==> b.HandledAt(k + 1) <= b.HandledAt(k) + DEFAULT_TTL
  {
    if b.Renewed(k) {
      var j: nat :| j > k && b.trips(j).handled && b.HandledAt(j) <= b.HandledAt(k) + DEFAULT_TTL;
      BeatsAreOrdered(b, k + 1, j);
    }
  }

  /** One renewal in time, read off the two round trips it depends on. */
  predicate InTimeAt(b: Beats, k: nat) {
    if k == 0 then b.trips(0).back + b.interval + b.trips(1).out <= DEFAULT_TTL
    else b.interval + b.trips(k + 1).out <= b.trips(k).out + DEFAULT_TTL
  }

  lemma RenewedIffInTime(b: Beats, k: nat)
    requires b.AllHandled() && b.Within(b.interval)
    ensures b.Renewed(k) <==> InTimeAt(b, k)
  {
    assert b.trips(k + 1).handled;
    RenewedIff(b, k);
    GapIs(b, k);
  }

  /**
   With every registration handled and every trip shorter than the interval, the handle keeps
   up exactly when no trip out takes so much longer than the one before that the slack is gone.
   */
  lemma InTimeIff(b: Beats)
    requires b.AllHandled() && b.Within(b.interval)
    ensures b.KeepsUp() <==> forall k: nat :: InTimeAt(b, k)
  {
    forall k: nat
      ensures b.trips(k).handled && (b.Renewed(k) <==> InTimeAt(b, k))
    {
      RenewedIffInTime(b, k);
    }
  }

  lemma PromptIsInTime(b: Beats, k: nat)
    requires b.interval == HEARTBEAT_INTERVAL && b.Within(PROMPT)
    ensures InTimeAt(b, k)
  {
    assert b.trips(k).out + b.trips(k).back < PROMPT;
    assert b.trips(k + 1).out + b.trips(k + 1).back < PROMPT;
  }

  /** One lost registration between others is already too long a gap when the trips are prompt. */
  lemma LostBeat(b: Beats, i: nat, j: nat)
    requires b.interval == HEARTBEAT_INTERVAL && b.Within(PROMPT) && j > i + 1
    ensures b.HandledAt(j) > b.HandledAt(i) + DEFAULT_TTL
  {
    BeatsAreOrdered(b, i + 2, j);
    KeepsPace(b, i + 2);
    assert b.trips(i).out + b.trips(i).back < PROMPT;
    if i > 0 {
      KeepsPace(b, i);
    }
    assert b.Due(i + 2) == b.Due(i + 1) + b.interval == b.Due(i) + b.interval + b.interval;
  }

  lemma {:induction false} LastHandledBefore(b: Beats, k: nat) returns (i: nat)
    requires b.trips(0).handled && !b.trips(k).handled
    ensures i < k && b.trips(i).handled && !b.trips(i + 1).handled
  {
    if b.trips(k - 1).handled {
      i := k - 1;
    } else {
      i := LastHandledBefore(b, k - 1);
    }
  }

  /** With round trips under 30 s at the default interval, keeping up means that no registration fails. */
  lemma PromptIff(b: Beats)
    requires b.Running() && b.interval == 240_000 && b.Within(30_000)
    ensures b.KeepsUp() <==> b.AllHandled()
  {
    if b.AllHandled() {
      forall k: nat
        ensures InTimeAt(b, k)
      {
        PromptIsInTime(b, k);
      }
      InTimeIff(b);
    } else if b.KeepsUp() {
      var k: nat :| !b.trips(k).handled;
      var i := LastHandledBefore(b, k);
      assert b.Renewed(i);
      var j: nat :| j > i && b.trips(j).handled && b.HandledAt(j) <= b.HandledAt(i) + DEFAULT_TTL;
      LostBeat(b, i, j);
    }
  }

  // ---- What the broker has been told ------------------------------------------------

  datatype Op = Register(req: RegisterRequest) | Remove(name: string)

  datatype Timed = At(time: Instant, op: Op)

  predicate Touches(urls: Urls.Parser, op: Op, name: string) {
    match op
    case Register(req) => req.name == name && ParseService(urls, req).Ok?
    case Remove(removed) => removed == name
  }

  function Applied(urls: Urls.Parser, r: Registry, timed: Timed): Registry {
    match timed.op
    case Register(req) => Registered(urls, r, req, timed.time, DEFAULT_TTL)
    case Remove(name) => r - {name}
  }

  function RegistryAfter(urls: Urls.Parser, history: seq<Timed>): Registry {
    if history == [] then map[]
    else Applied(urls, RegistryAfter(urls, history[..|history| - 1]), history[|history| - 1])
  }

  /** The last operation of a history that concerns `name`. */
  function LastTouch(urls: Urls.Parser, history: seq<Timed>, name: string): (r: Option<Timed>)
    ensures r.Some? ==> r.value in history && Touches(urls, r.value.op, name)
  {
    if history == [] then None
    else
      var n := |history| - 1;
      if Touches(urls, history[n].op, name) then Some(history[n])
      else LastTouch(urls, history[..n], name)
  }

  ghost predicate Listed(r: Registry, name: string, now: Instant) {
    name in r && r[name].lifetime.IsLive(now)
  }

  /**
   A service is listed exactly when the last thing the broker was told about it was a
   registration, pinned or less than 300 s old.
   */
  lemma {:induction false} ListedIff(urls: Urls.Parser, history: seq<Timed>, name: string, now: Instant)
    ensures Listed(RegistryAfter(urls, history), name, now) <==>
      (var last := LastTouch(urls, history, name);
       && last.Some? && last.value.op.Register?
       && (last.value.op.req.persistent == Some(true) || now < last.value.time + 300_000))
  {
    if history != [] {
      ListedIff(urls, history[..|history| - 1], name, now);
    }
  }

  ghost predicate Ordered(history: seq<Timed>) {
    forall i, j :: 0 <= i <= j < |history| ==> history[i].time <= history[j].time
  }

  lemma {:induction false} LastTouchIsLatest(urls: Urls.Parser, history: seq<Timed>, name: string, timed: Timed)
    requires Ordered(history) && timed in history && Touches(urls, timed.op, name)
    ensures LastTouch(urls, history, name).Some?
    ensures timed.time <= LastTouch(urls, history, name).value.time
  {
    var n := |history| - 1;
    var i :| 0 <= i <= n && history[i] == timed;
    if !Touches(urls, history[n].op, name) {
      assert history[..n][i] == timed;
      LastTouchIsLatest(urls, history[..n], name, timed);
    }
  }

  /** Of what the history up to `t` says about the service, all and only the beats handled by then. */
  ghost predicate OnlyBeats(urls: Urls.Parser, b: Beats, req: RegisterRequest, history: seq<Timed>, t: Instant) {
    && Ordered(history)
    && (forall k: nat :: b.trips(k).handled && b.HandledAt(k) <= t ==> At(b.HandledAt(k), Register(req)) in history)
    && (forall timed :: timed in history && Touches(urls, timed.op, req.name) ==> IsBeat(b, req, t, timed))
  }

  ghost predicate IsBeat(b: Beats, req: RegisterRequest, t: Instant, timed: Timed) {
    exists k: nat :: b.trips(k).handled && b.HandledAt(k) <= t && timed == At(b.HandledAt(k), Register(req))
  }

  /** An ephemeral service that only its handle registers is listed exactly while it is covered. */
  lemma ListedIffCovered(urls: Urls.Parser, b: Beats, req: RegisterRequest, history: seq<Timed>, t: Instant)
    requires ParseService(urls, req).Ok? && req.persistent != Some(true) && OnlyBeats(urls, b, req, history, t)
    ensures Listed(RegistryAfter(urls, history), req.name, t) <==> b.Covered(t)
  {
    ListedIff(urls, history, req.name, t);
    var last := LastTouch(urls, history, req.name);
    if last.Some? {
      assert IsBeat(b, req, t, last.value);
    }
    if b.Covered(t) {
      var k: nat :| b.trips(k).handled && b.HandledAt(k) <= t < b.HandledAt(k) + DEFAULT_TTL;
      LastTouchIsLatest(urls, history, req.name, At(b.HandledAt(k), Register(req)));
      assert IsBeat(b, req, t, LastTouch(urls, history, req.name).value);
    }
  }

  /**
   While the handle lives, an ephemeral service is listed at every instant from its first
   registration on exactly when every registration is renewed within the time-to-live.
   `histories` is what the broker has been told by each instant.
   */
  lemma StaysListedIff(urls: Urls.Parser, b: Beats, req: RegisterRequest, histories: Instant -> seq<Timed>)
    requires b.Running() && ParseService(urls, req).Ok? && req.persistent != Some(true)
    requires forall t :: b.HandledAt(0) <= t ==> OnlyBeats(urls, b, req, histories(t), t)
    ensures (forall t :: b.HandledAt(0) <= t ==> Listed(RegistryAfter(urls, histories(t)), req.name, t))
      <==> b.KeepsUp()
  {
    forall t | b.HandledAt(0) <= t
      ensures Listed(RegistryAfter(urls, histories(t)), req.name, t) <==> b.Covered(t)
    {
      ListedIffCovered(urls, b, req, histories(t), t);
    }
    CoveredIff(b);
  }

  /** A pinned service, whose handle sends only the first registration, is listed from then on. */
  lemma PinnedStaysListed(urls: Urls.Parser, b: Beats, req: RegisterRequest, history: seq<Timed>, t: Instant)
    requires b.Running() && ParseService(urls, req).Ok? && req.persistent == Some(true)
    requires OnlyBeats(urls, b, req, history, t) && b.HandledAt(0) <= t
    ensures Listed(RegistryAfter(urls, history), req.name, t)
  {
    LastTouchIsLatest(urls, history, req.name, At(b.HandledAt(0), Register(req)));
    assert IsBeat(b, req, t, LastTouch(urls, history, req.name).value);
    ListedIff(urls, history, req.name, t);
  }

  /** At the default interval, round trips under 30 s that all succeed are enough. */
  lemma StaysListed(urls: Urls.Parser, b: Beats, req: RegisterRequest, history: seq<Timed>, t: Instant)
    requires b.interval == 240_000 && b.Within(30_000) && b.AllHandled()
    requires ParseService(urls, req).Ok? && OnlyBeats(urls, b, req, history, t) && b.HandledAt(0) <= t
    ensures Listed(RegistryAfter(urls, history), req.name, t)
  {
    if req.persistent == Some(true) {
      PinnedStaysListed(urls, b, req, history, t);
    } else {
      PromptIff(b);
      CoveredIff(b);
      ListedIffCovered(urls, b, req, history, t);
    }
  }

  /** A registration that is not renewed in time leaves the service unlisted when it runs out. */
  lemma LateBeatLeavesAGap(urls: Urls.Parser, b: Beats, req: RegisterRequest, history: seq<Timed>, k: nat)
    requires b.Running() && ParseService(urls, req).Ok? && req.persistent != Some(true)
    requires b.trips(k).handled && !b.Renewed(k)
    requires OnlyBeats(urls, b, req, history, b.HandledAt(k) + DEFAULT_TTL)
    ensures !Listed(RegistryAfter(urls, history), req.name, b.HandledAt(k) + DEFAULT_TTL)
  {
    var t := b.HandledAt(k) + DEFAULT_TTL;
    ListedIffCovered(urls, b, req, history, t);
    if b.Covered(t) {
      var j: nat :| b.trips(j).handled && b.HandledAt(j) <= t < b.HandledAt(j) + DEFAULT_TTL;
      if j <= k {
        BeatsAreOrdered(b, j, k);
      }
    }
  }

  /** A slow return of the first registration and a slow second request: whatever follows, there is a gap. */
  lemma SlowTripsLeaveAGap(urls: Urls.Parser, b: Beats, req: RegisterRequest, history: seq<Timed>)
    requires b.Running() && ParseService(urls, req).Ok? && req.persistent != Some(true)
    requires !InTimeAt(b, 0) && OnlyBeats(urls, b, req, history, b.HandledAt(0) + DEFAULT_TTL)
    ensures !Listed(RegistryAfter(urls, history), req.name, b.HandledAt(0) + DEFAULT_TTL)
  {
    assert b.Due(1) == b.Due(0) + b.interval;
    forall j: nat | j > 0
      ensures b.HandledAt(j) > b.HandledAt(0) + DEFAULT_TTL
    {
      BeatsAreOrdered(b, 1, j);
    }
    LateBeatLeavesAGap(urls, b, req, history, 0);
  }
}
