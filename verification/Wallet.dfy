/**
 The connection wallet of `ferridis-client/src/wallet.rs` over a store whose writes and
 reads may fail (`ferridis-client/src/wallet_store.rs`).

 A store operation that fails changes nothing. The code, unlike its comment at lines
 147-149, updates memory before it writes the index; `FailedInsertKeepsMemoryIff` says
 exactly when a failed insert leaves memory alone.
 */
module Wallet {
  import opened Wrappers
  import opened Segments
  import opened Capability

  datatype StoredConnection = StoredConnection(capability: CapabilityRef, state: string)

  const INDEX_ACCOUNT := "__ferridis_wallet_index__"

  datatype WalletError = WalletBackendError | WalletParse

  /** The JSON forms of a connection and of the index. */
  datatype Codec = Codec(
    connectionText: StoredConnection -> string, parseConnection: string -> Option<StoredConnection>,
    indexText: seq<string> -> string, parseIndex: string -> Option<seq<string>>)
  {
    ghost predicate Faithful() {
      && (forall c :: parseConnection(connectionText(c)) == Some(c))
      && (forall keys :: parseIndex(indexText(keys)) == Some(keys))
    }
  }

  type Accounts = map<string, string>

  function Key(c: StoredConnection): string {
    Display(c.capability)
  }

  function Keys(memory: seq<StoredConnection>): seq<string> {
    if memory == [] then [] else [Key(memory[0])] + Keys(memory[1..])
  }

  /** Where the connection with this key is, or the length of the list. */
  function Position(memory: seq<StoredConnection>, key: string): (i: nat)
    ensures i <= |memory|
    ensures i < |memory| ==> Key(memory[i]) == key
    ensures forall k :: 0 <= k < i ==> Key(memory[k]) != key
  {
    if memory == [] || Key(memory[0]) == key then 0 else 1 + Position(memory[1..], key)
  }

  // ---- Store ------------------------------------------------------------------------

  class WalletStore {
    var inner: Accounts

    constructor ()
      ensures inner == map[]
    {
      inner := map[];
    }

    method Get(account: string, works: bool) returns (r: Result<Option<string>, WalletError>)
      ensures r == if !works then Err(WalletBackendError)
                   else if account in inner then Ok(Some(inner[account])) else Ok(None)
    {
      if !works {
        return Err(WalletBackendError);
      }
      return if account in inner then Ok(Some(inner[account])) else Ok(None);
    }

    method Set(account: string, value: string, works: bool) returns (ok: bool)
      modifies this
      ensures ok == works && inner == if works then old(inner)[account := value] else old(inner)
    {
      if works {
        inner := inner[account := value];
      }
      return works;
    }

    method Remove(account: string, works: bool) returns (ok: bool)
      modifies this
      ensures ok == works && inner == if works then old(inner) - {account} else old(inner)
    {
      if works {
        inner := inner - {account};
      }
      return works;
    }
  }

  // ---- What each operation does to store and memory ---------------------------------

  datatype World = World(store: Accounts, memory: seq<StoredConnection>)

  datatype Outcome = Outcome(world: World, reply: Result<Option<StoredConnection>, WalletError>)

  function Place(memory: seq<StoredConnection>, c: StoredConnection): seq<StoredConnection> {
    var i := Position(memory, Key(c));
    if i < |memory| then memory[i := c] else memory + [c]
  }

  function Prior(memory: seq<StoredConnection>, key: string): Option<StoredConnection> {
    var i := Position(memory, key);
    if i < |memory| then Some(memory[i]) else None
  }

  function Drop(memory: seq<StoredConnection>, key: string): seq<StoredConnection> {
    var i := Position(memory, key);
    if i < |memory| then memory[..i] + memory[i + 1..] else memory
  }

  function Indexed(codec: Codec, store: Accounts, memory: seq<StoredConnection>): Accounts {
    store[INDEX_ACCOUNT := codec.indexText(Keys(memory))]
  }

  /** The memory after an entry write, and the index write if that works too. */
  function Saved(codec: Codec, store: Accounts, memory: seq<StoredConnection>, indexWorks: bool,
                 reply: Option<StoredConnection>): Outcome
  {
    if indexWorks then Outcome(World(Indexed(codec, store, memory), memory), Ok(reply))
    else Outcome(World(store, memory), Err(WalletBackendError))
  }

  function Inserted(codec: Codec, w: World, c: StoredConnection, entryWorks: bool, indexWorks: bool): Outcome {
    if !entryWorks then Outcome(w, Err(WalletBackendError))
    else Saved(codec, w.store[Key(c) := codec.connectionText(c)], Place(w.memory, c), indexWorks,
               Prior(w.memory, Key(c)))
  }

  function Removed(codec: Codec, w: World, key: string, entryWorks: bool, indexWorks: bool): Outcome {
    if Prior(w.memory, key).None? then Outcome(w, Ok(None))
    else if !entryWorks then Outcome(w, Err(WalletBackendError))
    else Saved(codec, w.store - {key}, Drop(w.memory, key), indexWorks, Prior(w.memory, key))
  }

  /** The connections of the listed keys; a key without an entry is skipped. */
  function Loaded(codec: Codec, store: Accounts, keys: seq<string>, readWorks: string -> bool)
    : Result<seq<StoredConnection>, WalletError>
  {
    if keys == [] then Ok([])
    else if !readWorks(keys[0]) then Err(WalletBackendError)
    else if keys[0] !in store then Loaded(codec, store, keys[1..], readWorks)
    else
      match codec.parseConnection(store[keys[0]])
      case None => Err(WalletParse)
      case Some(c) =>
        Prepend([c], Loaded(codec, store, keys[1..], readWorks))
  }

  function Opened(codec: Codec, store: Accounts, readWorks: string -> bool)
    : Result<seq<StoredConnection>, WalletError>
  {
    if !readWorks(INDEX_ACCOUNT) then Err(WalletBackendError)
    else if INDEX_ACCOUNT !in store then Ok([])
    else
      match codec.parseIndex(store[INDEX_ACCOUNT])
      case None => Err(WalletParse)
      case Some(keys) => Loaded(codec, store, keys, readWorks)
  }

  function Prepend(front: seq<StoredConnection>, r: Result<seq<StoredConnection>, WalletError>)
    : Result<seq<StoredConnection>, WalletError>
  {
    match r
    case Err(e) => Err(e)
    case Ok(rest) => Ok(front + rest)
  }

  /** Every listed key can be read, and what stands under it parses. */
  ghost predicate Readable(codec: Codec, store: Accounts, keys: seq<string>, readWorks: string -> bool) {
    forall k :: 0 <= k < |keys| ==> ReadsOk(codec, store, keys[k], readWorks)
  }

  predicate ReadsOk(codec: Codec, store: Accounts, key: string, readWorks: string -> bool) {
    readWorks(key) && (key in store ==> codec.parseConnection(store[key]).Some?)
  }

  /** A load succeeds exactly when everything that is listed reads. */
  lemma {:induction false} LoadsIff(codec: Codec, store: Accounts, keys: seq<string>, readWorks: string -> bool)
    ensures Loaded(codec, store, keys, readWorks).Ok? <==> Readable(codec, store, keys, readWorks)
  {
    if keys != [] {
      assert forall k :: 0 <= k < |keys[1..]| ==> keys[1..][k] == keys[k + 1];
      assert Readable(codec, store, keys, readWorks) <==>
        ReadsOk(codec, store, keys[0], readWorks) && Readable(codec, store, keys[1..], readWorks);
      LoadsIff(codec, store, keys[1..], readWorks);
    }
  }

  /** The first key that does not read decides the error: its text is malformed, or the store failed. */
  lemma {:induction false} LoadFails(codec: Codec, store: Accounts, keys: seq<string>, readWorks: string -> bool, k: nat)
    requires k < |keys| && !ReadsOk(codec, store, keys[k], readWorks)
    requires forall i :: 0 <= i < k ==> ReadsOk(codec, store, keys[i], readWorks)
    ensures Loaded(codec, store, keys, readWorks) == Err(if readWorks(keys[k]) then WalletParse else WalletBackendError)
  {
    if k > 0 {
      assert ReadsOk(codec, store, keys[0], readWorks);
      assert forall i :: 0 <= i < k ==> keys[1..][i] == keys[i + 1];
      LoadFails(codec, store, keys[1..], readWorks, k - 1);
    }
  }

  /** Opening fails exactly when the index cannot be read or parsed, or a connection that it lists cannot. */
  lemma OpensIff(codec: Codec, store: Accounts, readWorks: string -> bool)
    ensures var r := Opened(codec, store, readWorks);
      && (!readWorks("__ferridis_wallet_index__") ==> r == Err(WalletBackendError))
      && (readWorks("__ferridis_wallet_index__") && "__ferridis_wallet_index__" !in store ==> r == Ok([]))
      && (readWorks("__ferridis_wallet_index__") && "__ferridis_wallet_index__" in store ==>
           var index := codec.parseIndex(store["__ferridis_wallet_index__"]);
           if index.None? then r == Err(WalletParse) else r.Ok? <==> Readable(codec, store, index.value, readWorks))
  {
    if INDEX_ACCOUNT in store {
      var index := codec.parseIndex(store[INDEX_ACCOUNT]);
      if index.Some? {
        LoadsIff(codec, store, index.value, readWorks);
      }
    }
  }

  lemma PrependOne(front: seq<StoredConnection>, c: StoredConnection, r: Result<seq<StoredConnection>, WalletError>)
    ensures Prepend(front, Prepend([c], r)) == Prepend(front + [c], r)
    ensures Prepend([], r) == r
  {
    if r.Ok? {
      Assoc(front, [c], r.value);
      assert [] + r.value == r.value;
    }
  }

  class Wallet {
    const codec: Codec
    const store: WalletStore
    var connections: seq<StoredConnection>

    constructor (codec: Codec, store: WalletStore, connections: seq<StoredConnection>)
      ensures this.codec == codec && this.store == store && this.connections == connections
    {
      this.codec, this.store, this.connections := codec, store, connections;
    }

    /** The loop of `with_store`; the wallet is built from what it returns. */
    static method Load(codec: Codec, store: WalletStore, readWorks: string -> bool)
      returns (r: Result<seq<StoredConnection>, WalletError>)
      ensures r == Opened(codec, store.inner, readWorks)
    {
      var index := store.Get(INDEX_ACCOUNT, readWorks(INDEX_ACCOUNT));
      if index.Err? {
        return Err(index.error);
      }
      if index.value.None? {
        return Ok([]);
      }
      var parsed := codec.parseIndex(index.value.value);
      if parsed.None? {
        return Err(WalletParse);
      }
      var keys := parsed.value;
      var connections: seq<StoredConnection> := [];
      ghost var whole := Opened(codec, store.inner, readWorks);
      if whole.Ok? {
        assert [] + whole.value == whole.value;
      }
      while keys != []
        invariant whole == Prepend(connections, Loaded(codec, store.inner, keys, readWorks))
        decreases |keys|
      {
        var key := keys[0];
        var entry := store.Get(key, readWorks(key));
        if entry.Err? {
          return Err(entry.error);
        }
        if entry.value.Some? {
          var stored := codec.parseConnection(entry.value.value);
          if stored.None? {
            return Err(WalletParse);
          }
          PrependOne(connections, stored.value, Loaded(codec, store.inner, keys[1..], readWorks));
          connections := connections + [stored.value];
        }
        keys := keys[1..];
      }
      assert connections + [] == connections;
      return Ok(connections);
    }

    ghost function Snapshot(): World
      reads this, store
    {
      World(store.inner, connections)
    }

    method SaveIndex(works: bool) returns (ok: bool)
      modifies store
      ensures ok == works && connections == old(connections)
      ensures store.inner == if works then Indexed(codec, old(store.inner), connections) else old(store.inner)
    {
      ok := store.Set(INDEX_ACCOUNT, codec.indexText(Keys(connections)), works);
    }

    method Insert(stored: StoredConnection, entryWorks: bool, indexWorks: bool)
      returns (r: Result<Option<StoredConnection>, WalletError>)
      modifies this, store
      ensures Outcome(Snapshot(), r) == Inserted(codec, old(Snapshot()), stored, entryWorks, indexWorks)
    {
      var key := Key(stored);
      var written := store.Set(key, codec.connectionText(stored), entryWorks);
      if !written {
        return Err(WalletBackendError);
      }
      var i := Position(connections, key);
      var prior := None;
      if i < |connections| {
        prior := Some(connections[i]);
        connections := connections[i := stored];
      } else {
        connections := connections + [stored];
      }
      var saved := SaveIndex(indexWorks);
      if !saved {
        return Err(WalletBackendError);
      }
      return Ok(prior);
    }

    method Remove(capability: CapabilityRef, entryWorks: bool, indexWorks: bool)
      returns (r: Result<Option<StoredConnection>, WalletError>)
      modifies this, store
      ensures Outcome(Snapshot(), r) == Removed(codec, old(Snapshot()), Display(capability), entryWorks, indexWorks)
    {
      var key := Display(capability);
      var i := Position(connections, key);
      if i == |connections| {
        return Ok(None);
      }
      var written := store.Remove(key, entryWorks);
      if !written {
        return Err(WalletBackendError);
      }
      var removed := connections[i];
      connections := connections[..i] + connections[i + 1..];
      var saved := SaveIndex(indexWorks);
      if !saved {
        return Err(WalletBackendError);
      }
      return Ok(Some(removed));
    }

    method Find(capability: CapabilityRef) returns (r: Option<StoredConnection>)
      ensures r == Prior(connections, Display(capability))
    {
      var i := 0;
      while i < |connections|
        invariant i <= |connections|
        invariant forall k :: 0 <= k < i ==> connections[k].capability != capability
      {
        DisplayInjective(connections[i].capability, capability);
        if connections[i].capability == capability {
          KeysDifferBefore(connections, capability, i);
          return Some(connections[i]);
        }
        i := i + 1;
      }
      KeysDifferBefore(connections, capability, i);
      return None;
    }
  }

  /** Looking a connection up by its reference and by its key is the same thing. */
  lemma KeysDifferBefore(memory: seq<StoredConnection>, capability: CapabilityRef, i: nat)
    requires i <= |memory|
    requires forall k :: 0 <= k < i ==> memory[k].capability != capability
    ensures forall k :: 0 <= k < i ==> Key(memory[k]) != Display(capability)
  {
    forall k | 0 <= k < i ensures Key(memory[k]) != Display(capability) {
      DisplayInjective(memory[k].capability, capability);
    }
  }

  // ---- The invariant ----------------------------------------------------------------

  lemma KeyIsNotIndex(r: CapabilityRef)
    ensures Display(r) != INDEX_ACCOUNT
  {
    assert Display(r)[0] == 'f';
  }

  ghost predicate Distinct(keys: seq<string>) {
    forall i, j :: 0 <= i < j < |keys| ==> keys[i] != keys[j]
  }

  /** An entry holds a connection under that connection's own key. */
  ghost predicate HoldsEntry(codec: Codec, store: Accounts, key: string) {
    key in store && exists c :: Key(c) == key && store[key] == codec.connectionText(c)
  }

  ghost predicate HoldsIndex(codec: Codec, store: Accounts) {
    INDEX_ACCOUNT in store ==>
      exists keys :: store[INDEX_ACCOUNT] == codec.indexText(keys) && Distinct(keys) && INDEX_ACCOUNT !in keys
  }

  ghost predicate Mirrors(codec: Codec, store: Accounts, c: StoredConnection) {
    Key(c) in store && store[Key(c)] == codec.connectionText(c)
  }

  /** Memory lists distinct keys and mirrors the store; the store holds nothing malformed. */
  ghost predicate Inv(codec: Codec, w: World) {
    && Distinct(Keys(w.memory))
    && (forall c :: c in w.memory ==> Mirrors(codec, w.store, c))
    && (forall key :: key in w.store && key != INDEX_ACCOUNT ==> HoldsEntry(codec, w.store, key))
    && HoldsIndex(codec, w.store)
  }

  lemma {:induction false} KeysAt(memory: seq<StoredConnection>)
    ensures |Keys(memory)| == |memory|
    ensures forall k :: 0 <= k < |memory| ==> Keys(memory)[k] == Key(memory[k])
  {
    if memory != [] {
      KeysAt(memory[1..]);
    }
  }

  lemma KeysAreNotIndex(memory: seq<StoredConnection>)
    ensures INDEX_ACCOUNT !in Keys(memory)
  {
    KeysAt(memory);
    forall k | 0 <= k < |memory| ensures Keys(memory)[k] != INDEX_ACCOUNT {
      KeyIsNotIndex(memory[k].capability);
    }
  }

  lemma PlaceKeepsDistinct(memory: seq<StoredConnection>, c: StoredConnection)
    requires Distinct(Keys(memory))
    ensures Distinct(Keys(Place(memory, c)))
    ensures forall d :: d in Place(memory, c) ==> d == c || (d in memory && Key(d) != Key(c))
    ensures c in Place(memory, c)
  {
    var placed, i := Place(memory, c), Position(memory, Key(c));
    PlaceAt(memory, c);
    KeysAt(memory);
    KeysAt(placed);
    forall d | d in placed ensures d == c || (d in memory && Key(d) != Key(c)) {
      var k :| 0 <= k < |placed| && placed[k] == d;
      if k != i {
        assert d == memory[k];
        assert i < |memory| ==> Keys(memory)[k] != Keys(memory)[i];
      }
    }
  }

  lemma PlaceAt(memory: seq<StoredConnection>, c: StoredConnection)
    ensures var placed, i := Place(memory, c), Position(memory, Key(c));
      && |placed| == (if i < |memory| then |memory| else |memory| + 1)
      && i < |placed| && placed[i] == c
      && forall k :: 0 <= k < |placed| && k != i ==> placed[k] == memory[k]
  {
  }

  lemma DropAt(memory: seq<StoredConnection>, key: string)
    requires Position(memory, key) < |memory|
    ensures var dropped, i := Drop(memory, key), Position(memory, key);
      && |dropped| == |memory| - 1
      && (forall k :: 0 <= k < i ==> dropped[k] == memory[k])
      && (forall k :: i <= k < |dropped| ==> dropped[k] == memory[k + 1])
  {
  }

  lemma DropKeepsDistinct(memory: seq<StoredConnection>, key: string)
    requires Distinct(Keys(memory))
    ensures Distinct(Keys(Drop(memory, key)))
    ensures forall d :: d in Drop(memory, key) <==> d in memory && Key(d) != key
  {
    var dropped, i := Drop(memory, key), Position(memory, key);
    KeysAt(memory);
    KeysAt(dropped);
    if i < |memory| {
      DropAt(memory, key);
      forall k | 0 <= k < |memory| && k != i ensures Key(memory[k]) != key && memory[k] in dropped {
        assert Keys(memory)[k] != Keys(memory)[i];
        assert dropped[if k < i then k else k - 1] == memory[k];
      }
    }
  }

  lemma SavedKeepsInv(codec: Codec, store: Accounts, memory: seq<StoredConnection>, indexWorks: bool,
                      reply: Option<StoredConnection>)
    requires Inv(codec, World(store, memory))
    ensures Inv(codec, Saved(codec, store, memory, indexWorks, reply).world)
  {
    if indexWorks {
      var after := Indexed(codec, store, memory);
      KeysAreNotIndex(memory);
      forall c | c in memory ensures Mirrors(codec, after, c) {
        assert Mirrors(codec, store, c);
        KeyIsNotIndex(c.capability);
      }
      forall key | key in after && key != INDEX_ACCOUNT ensures HoldsEntry(codec, after, key) {
        assert HoldsEntry(codec, store, key);
      }
    }
  }

  lemma InsertKeepsInv(codec: Codec, w: World, c: StoredConnection, entryWorks: bool, indexWorks: bool)
    requires Inv(codec, w)
    ensures Inv(codec, Inserted(codec, w, c, entryWorks, indexWorks).world)
  {
    if entryWorks {
      var store, memory := w.store[Key(c) := codec.connectionText(c)], Place(w.memory, c);
      PlaceKeepsDistinct(w.memory, c);
      KeyIsNotIndex(c.capability);
      forall d | d in memory ensures Mirrors(codec, store, d) {
        assert d != c ==> Mirrors(codec, w.store, d);
      }
      forall key | key in store && key != INDEX_ACCOUNT ensures HoldsEntry(codec, store, key) {
        assert key != Key(c) ==> HoldsEntry(codec, w.store, key);
      }
      SavedKeepsInv(codec, store, memory, indexWorks, Prior(w.memory, Key(c)));
    }
  }

  lemma RemoveKeepsInv(codec: Codec, w: World, capability: CapabilityRef, entryWorks: bool, indexWorks: bool)
    requires Inv(codec, w)
    ensures Inv(codec, Removed(codec, w, Display(capability), entryWorks, indexWorks).world)
  {
    var key := Display(capability);
    if Prior(w.memory, key).Some? && entryWorks {
      var store, memory := w.store - {key}, Drop(w.memory, key);
      DropKeepsDistinct(w.memory, key);
      KeyIsNotIndex(capability);
      forall d | d in memory ensures Mirrors(codec, store, d) {
        assert Mirrors(codec, w.store, d);
      }
      forall k | k in store && k != INDEX_ACCOUNT ensures HoldsEntry(codec, store, k) {
        assert HoldsEntry(codec, w.store, k);
      }
      SavedKeepsInv(codec, store, memory, indexWorks, Prior(w.memory, key));
    }
  }

  /** What a load of well-formed entries gives: the listed keys that have entries, in order. */
  lemma {:induction false} LoadedIsPresent(codec: Codec, store: Accounts, keys: seq<string>, readWorks: string -> bool)
    requires codec.Faithful() && Distinct(keys) && INDEX_ACCOUNT !in keys
    requires forall key :: key in store && key != INDEX_ACCOUNT ==> HoldsEntry(codec, store, key)
    requires Loaded(codec, store, keys, readWorks).Ok?
    ensures var memory := Loaded(codec, store, keys, readWorks).value;
      && Keys(memory) == Present(store, keys)
      && (forall c :: c in memory ==> Mirrors(codec, store, c))
  {
    if keys != [] {
      var key, rest := keys[0], keys[1..];
      assert forall i :: 0 <= i < |rest| ==> rest[i] == keys[i + 1];
      LoadedIsPresent(codec, store, rest, readWorks);
      if key in store {
        assert HoldsEntry(codec, store, key);
        var c :| Key(c) == key && store[key] == codec.connectionText(c);
        assert codec.parseConnection(store[key]) == Some(c);
        var more := Loaded(codec, store, rest, readWorks).value;
        assert ([c] + more)[1..] == more;
      }
    }
  }

  function Present(store: Accounts, keys: seq<string>): seq<string> {
    if keys == [] then []
    else (if keys[0] in store then [keys[0]] else []) + Present(store, keys[1..])
  }

  lemma {:induction false} PresentIsDistinct(store: Accounts, keys: seq<string>)
    requires Distinct(keys)
    ensures Distinct(Present(store, keys))
    ensures forall key :: key in Present(store, keys) ==> key in keys
  {
    if keys != [] {
      var rest := keys[1..];
      assert forall i :: 0 <= i < |rest| ==> rest[i] == keys[i + 1];
      PresentIsDistinct(store, rest);
      assert keys[0] !in rest;
      var present := Present(store, rest);
      assert Present(store, keys) == (if keys[0] in store then [keys[0]] else []) + present;
    }
  }

  lemma OpenKeepsInv(codec: Codec, store: Accounts, memory: seq<StoredConnection>, readWorks: string -> bool)
    requires codec.Faithful() && Inv(codec, World(store, memory))
    requires Opened(codec, store, readWorks).Ok?
    ensures Inv(codec, World(store, Opened(codec, store, readWorks).value))
  {
    if INDEX_ACCOUNT in store {
      var keys :| store[INDEX_ACCOUNT] == codec.indexText(keys) && Distinct(keys) && INDEX_ACCOUNT !in keys;
      assert codec.parseIndex(store[INDEX_ACCOUNT]) == Some(keys);
      LoadedIsPresent(codec, store, keys, readWorks);
      PresentIsDistinct(store, keys);
    }
  }

  // ---- What a call changes ----------------------------------------------------------

  /** A call with the outcome of its store operations; `Reopen` is also a crash and restart. */
  datatype Op =
    | Insert(stored: StoredConnection, entryWorks: bool, indexWorks: bool)
    | Remove(capability: CapabilityRef, entryWorks: bool, indexWorks: bool)
    | Reopen(readWorks: string -> bool)

  function Apply(codec: Codec, w: World, op: Op): Outcome {
    match op
    case Insert(c, entryWorks, indexWorks) => Inserted(codec, w, c, entryWorks, indexWorks)
    case Remove(capability, entryWorks, indexWorks) => Removed(codec, w, Display(capability), entryWorks, indexWorks)
    case Reopen(readWorks) =>
      match Opened(codec, w.store, readWorks)
      case Ok(memory) => Outcome(World(w.store, memory), Ok(None))
      case Err(e) => Outcome(w, Err(e))
  }

  /** The connections of other capabilities, in order. */
  function Others(memory: seq<StoredConnection>, capability: CapabilityRef): seq<StoredConnection> {
    if memory == [] then []
    else (if memory[0].capability == capability then [] else [memory[0]]) + Others(memory[1..], capability)
  }

  ghost predicate Held(memory: seq<StoredConnection>, capability: CapabilityRef) {
    exists c :: c in memory && c.capability == capability
  }

  /** Between the two stores, nothing changed but the entry under `key` and the index. */
  ghost predicate SameElsewhere(before: Accounts, after: Accounts, key: string) {
    forall account :: account != key && account != INDEX_ACCOUNT ==>
      (account in before <==> account in after) && (account in before ==> before[account] == after[account])
  }

  /** The index lists `keys` if its write worked, and is what it was if not. */
  ghost predicate IndexIs(codec: Codec, before: Accounts, after: Accounts, keys: seq<string>, indexWorks: bool) {
    if indexWorks then INDEX_ACCOUNT in after && after[INDEX_ACCOUNT] == codec.indexText(keys)
    else
      && (INDEX_ACCOUNT in before <==> INDEX_ACCOUNT in after)
      && (INDEX_ACCOUNT in before ==> before[INDEX_ACCOUNT] == after[INDEX_ACCOUNT])
  }

  lemma {:induction false} OthersOfNone(memory: seq<StoredConnection>, capability: CapabilityRef)
    requires !Held(memory, capability)
    ensures Others(memory, capability) == memory
  {
    if memory != [] {
      assert memory[0] in memory && forall c :: c in memory[1..] ==> c in memory;
      OthersOfNone(memory[1..], capability);
    }
  }

  lemma {:induction false} OthersConcat(a: seq<StoredConnection>, b: seq<StoredConnection>, capability: CapabilityRef)
    ensures Others(a + b, capability) == Others(a, capability) + Others(b, capability)
  {
    if a == [] {
      assert a + b == b;
    } else {
      assert (a + b)[0] == a[0] && (a + b)[1..] == a[1..] + b;
      OthersConcat(a[1..], b, capability);
    }
  }

  lemma OthersOfOne(c: StoredConnection)
    ensures Others([c], c.capability) == []
  {
    assert [c][1..] == [];
  }

  lemma OthersAround(front: seq<StoredConnection>, c: StoredConnection, back: seq<StoredConnection>)
    requires !Held(front, c.capability) && !Held(back, c.capability)
    ensures Others(front + ([c] + back), c.capability) == front + back
  {
    OthersOfNone(front, c.capability);
    OthersOfNone(back, c.capability);
    OthersOfOne(c);
    OthersConcat(front, [c] + back, c.capability);
    OthersConcat([c], back, c.capability);
    assert [] + back == back;
  }

  lemma DistinctAt(keys: seq<string>, i: nat, k: nat)
    requires Distinct(keys) && i < |keys| && k < |keys| && i != k
    ensures keys[i] != keys[k]
  {
    assert if i < k then keys[i] != keys[k] else keys[k] != keys[i];
  }

  lemma OnlyOne(memory: seq<StoredConnection>, i: nat, k: nat)
    requires Distinct(Keys(memory)) && i < |memory| && k < |memory| && i != k
    ensures memory[i].capability != memory[k].capability
  {
    KeysAt(memory);
    DistinctAt(Keys(memory), i, k);
  }

  /** In a list of distinct keys a held connection has the others on its two sides. */
  lemma HeldAt(memory: seq<StoredConnection>, c: StoredConnection) returns (i: nat)
    requires Distinct(Keys(memory)) && c in memory
    ensures i < |memory| && memory[i] == c && i == Position(memory, Key(c))
    ensures Others(memory, c.capability) == memory[..i] + memory[i + 1..]
  {
    i :| i < |memory| && memory[i] == c;
    var p := Position(memory, Key(c));
    if p != i {
      DisplayInjective(memory[p].capability, c.capability);
      OnlyOne(memory, i, p);
    }
    var front, back := memory[..i], memory[i + 1..];
    forall k | 0 <= k < |memory| && k != i
      ensures memory[k].capability != c.capability
    {
      OnlyOne(memory, i, k);
    }
    assert forall k :: 0 <= k < |back| ==> back[k] == memory[k + i + 1];
    assert memory == front + ([c] + back);
    OthersAround(front, c, back);
  }

  lemma NotHeld(memory: seq<StoredConnection>, capability: CapabilityRef)
    requires !Held(memory, capability)
    ensures Position(memory, Display(capability)) == |memory|
  {
    KeysDifferBefore(memory, capability, |memory|);
  }

  /**
   Removing a held connection answers it, deletes its entry and nothing else from the store,
   and leaves the other connections in memory, in order. A failing index write is reported
   after that has happened.
   */
  lemma RemoveRemoves(codec: Codec, w: World, c: StoredConnection, indexWorks: bool)
    requires Inv(codec, w) && c in w.memory
    ensures var o := Apply(codec, w, Remove(c.capability, true, indexWorks));
      && o.reply == (if indexWorks then Ok(Some(c)) else Err(WalletBackendError))
      && o.world.memory == Others(w.memory, c.capability)
      && Display(c.capability) !in o.world.store
      && SameElsewhere(w.store, o.world.store, Display(c.capability))
      && IndexIs(codec, w.store, o.world.store, Keys(o.world.memory), indexWorks)
  {
    var i := HeldAt(w.memory, c);
    KeyIsNotIndex(c.capability);
  }

  /** Removing what is not held, or failing to delete the entry, changes nothing. */
  lemma RemoveKeeps(codec: Codec, w: World, capability: CapabilityRef, entryWorks: bool, indexWorks: bool)
    requires !Held(w.memory, capability) || !entryWorks
    ensures Apply(codec, w, Remove(capability, entryWorks, indexWorks))
         == Outcome(w, if Held(w.memory, capability) then Err(WalletBackendError) else Ok(None))
  {
    if Held(w.memory, capability) {
      var c :| c in w.memory && c.capability == capability;
      var k :| 0 <= k < |w.memory| && w.memory[k] == c;
    } else {
      NotHeld(w.memory, capability);
    }
  }

  /**
   An insert writes the connection's entry and no other. In memory it takes the place of the
   connection with its capability, which is then the answer, or comes last if there was none.
   */
  lemma InsertInserts(codec: Codec, w: World, c: StoredConnection, indexWorks: bool, prior: Option<StoredConnection>)
    requires Inv(codec, w)
    requires prior.Some? ==> prior.value in w.memory && prior.value.capability == c.capability
    requires prior.None? ==> !Held(w.memory, c.capability)
    ensures var o := Apply(codec, w, Insert(c, true, indexWorks));
      && o.reply == (if indexWorks then Ok(prior) else Err(WalletBackendError))
      && Display(c.capability) in o.world.store
      && o.world.store[Display(c.capability)] == codec.connectionText(c)
      && SameElsewhere(w.store, o.world.store, Display(c.capability))
      && IndexIs(codec, w.store, o.world.store, Keys(o.world.memory), indexWorks)
      && (prior.None? ==> o.world.memory == w.memory + [c])
      && (prior.Some? ==>
           |o.world.memory| == |w.memory| && forall k :: 0 <= k < |w.memory| ==>
             o.world.memory[k] == if w.memory[k] == prior.value then c else w.memory[k])
  {
    KeyIsNotIndex(c.capability);
    if prior.Some? {
      var i := HeldAt(w.memory, prior.value);
      forall k | 0 <= k < |w.memory| && k != i
        ensures w.memory[k] != prior.value
      {
        OnlyOne(w.memory, i, k);
      }
    } else {
      NotHeld(w.memory, c.capability);
    }
  }

  /** An insert whose entry write fails changes nothing. */
  lemma InsertKeeps(codec: Codec, w: World, c: StoredConnection, indexWorks: bool)
    ensures Apply(codec, w, Insert(c, false, indexWorks)) == Outcome(w, Err(WalletBackendError))
  {
  }

  // ---- Runs -------------------------------------------------------------------------

  function After(codec: Codec, run: seq<Op>, n: nat): World
    requires n <= |run|
  {
    if n == 0 then World(map[], []) else Apply(codec, After(codec, run, n - 1), run[n - 1]).world
  }

  lemma ApplyKeepsInv(codec: Codec, w: World, op: Op)
    requires codec.Faithful() && Inv(codec, w)
    ensures Inv(codec, Apply(codec, w, op).world)
  {
    match op {
      case Insert(c, entryWorks, indexWorks) => InsertKeepsInv(codec, w, c, entryWorks, indexWorks);
      case Remove(capability, entryWorks, indexWorks) => RemoveKeepsInv(codec, w, capability, entryWorks, indexWorks);
      case Reopen(readWorks) =>
        if Opened(codec, w.store, readWorks).Ok? {
          OpenKeepsInv(codec, w.store, w.memory, readWorks);
        }
    }
  }

  /** Whatever fails and whenever the wallet is reopened, memory mirrors the store. */
  lemma {:induction false} MirrorInEveryRun(codec: Codec, run: seq<Op>, n: nat)
    requires codec.Faithful() && n <= |run|
    ensures Inv(codec, After(codec, run, n))
  {
    if n > 0 {
      MirrorInEveryRun(codec, run, n - 1);
      ApplyKeepsInv(codec, After(codec, run, n - 1), run[n - 1]);
    }
  }

  ghost predicate IndexLists(codec: Codec, w: World, keys: seq<string>) {
    INDEX_ACCOUNT in w.store && w.store[INDEX_ACCOUNT] == codec.indexText(keys)
  }

  lemma {:induction false} LoadedIsMemory(codec: Codec, store: Accounts, memory: seq<StoredConnection>,
                                          readWorks: string -> bool)
    requires codec.Faithful()
    requires forall c :: c in memory ==> Mirrors(codec, store, c)
    requires Loaded(codec, store, Keys(memory), readWorks).Ok?
    ensures Loaded(codec, store, Keys(memory), readWorks) == Ok(memory)
  {
    if memory != [] {
      var c, rest := memory[0], memory[1..];
      assert Mirrors(codec, store, c);
      assert Keys(memory)[1..] == Keys(rest);
      assert forall d :: d in rest ==> d in memory;
      LoadedIsMemory(codec, store, rest, readWorks);
      assert memory == [c] + rest;
    }
  }

  lemma {:induction false} LoadedFailsOnlyOnReads(codec: Codec, store: Accounts, keys: seq<string>,
                                                  readWorks: string -> bool)
    requires codec.Faithful() && INDEX_ACCOUNT !in keys
    requires forall key :: key in store && key != INDEX_ACCOUNT ==> HoldsEntry(codec, store, key)
    requires forall key :: key in keys ==> readWorks(key)
    ensures Loaded(codec, store, keys, readWorks).Ok?
  {
    if keys != [] {
      var key := keys[0];
      assert key in keys && readWorks(key);
      LoadedFailsOnlyOnReads(codec, store, keys[1..], readWorks);
      if key in store {
        assert HoldsEntry(codec, store, key);
      }
    }
  }

  /** With an index that lists memory, reopening reads memory back, in order. */
  lemma SyncedReopens(codec: Codec, w: World, readWorks: string -> bool)
    requires codec.Faithful() && Inv(codec, w) && IndexLists(codec, w, Keys(w.memory))
    requires readWorks(INDEX_ACCOUNT) && forall key :: key in Keys(w.memory) ==> readWorks(key)
    ensures Opened(codec, w.store, readWorks) == Ok(w.memory)
  {
    assert codec.parseIndex(w.store[INDEX_ACCOUNT]) == Some(Keys(w.memory));
    KeysAreNotIndex(w.memory);
    LoadedFailsOnlyOnReads(codec, w.store, Keys(w.memory), readWorks);
    LoadedIsMemory(codec, w.store, w.memory, readWorks);
  }

  /** Calls whose success rewrites the index. */
  predicate Writes(op: Op, reply: Result<Option<StoredConnection>, WalletError>) {
    && reply.Ok?
    && (op.Insert? || (op.Remove? && reply.value.Some?))
  }

  /**
   After any history of failures, one successful insert, or one successful remove that
   removed something, makes reopening reproduce the in-memory list exactly, in order.
   */
  lemma OneSuccessHeals(codec: Codec, run: seq<Op>, n: nat, readWorks: string -> bool)
    requires codec.Faithful() && n < |run|
    requires var o := Apply(codec, After(codec, run, n), run[n]); Writes(run[n], o.reply)
    requires forall account :: readWorks(account)
    ensures var w := After(codec, run, n + 1);
      Opened(codec, w.store, readWorks) == Ok(w.memory)
  {
    MirrorInEveryRun(codec, run, n + 1);
    var w := After(codec, run, n + 1);
    assert IndexLists(codec, w, Keys(w.memory));
    SyncedReopens(codec, w, readWorks);
  }

  /**
   A failed insert leaves memory as it was exactly when the entry write is what failed, or
   that very connection was already there. Otherwise memory has it and the index does not.
   */
  lemma FailedInsertKeepsMemoryIff(codec: Codec, w: World, c: StoredConnection, entryWorks: bool, indexWorks: bool)
    requires Inserted(codec, w, c, entryWorks, indexWorks).reply.Err?
    ensures Inserted(codec, w, c, entryWorks, indexWorks).world.memory == w.memory
      <==> !entryWorks || Prior(w.memory, Key(c)) == Some(c)
  {
    var i := Position(w.memory, Key(c));
    if entryWorks && i < |w.memory| {
      assert Place(w.memory, c)[i] == c;
    }
  }

  /** The promise that a failed insert keeps memory, broken by the first insert into an empty wallet. */
  lemma FailedInsertChangesMemory(codec: Codec, c: StoredConnection)
    ensures var o := Inserted(codec, World(map[], []), c, true, false);
      o.reply == Err(WalletBackendError) && o.world.memory == [c]
  {
  }
}
