/**
 A table whose entries are put under a key and taken at most once, seen over a whole
 history. Authorization codes and pending connections are both kept this way.
 */
module OneShot {
  import opened Wrappers

  datatype Event<K, V> = Put(key: K, value: V) | Take(key: K) | Skip

  function After<K, V>(table: map<K, V>, event: Event<K, V>): map<K, V> {
    match event
    case Put(key, value) => table[key := value]
    case Take(key) => table - {key}
    case Skip => table
  }

  /** The table after the first `n` events. */
  function Table<K, V>(events: seq<Event<K, V>>, n: nat): map<K, V>
    requires n <= |events|
  {
    if n == 0 then map[] else After(Table(events, n - 1), events[n - 1])
  }

  /** The last event among the first `n` that puts something under `key`. */
  function LastPut<K(==), V>(events: seq<Event<K, V>>, n: nat, key: K): (r: Option<nat>)
    requires n <= |events|
    ensures r.Some? ==> r.value < n && events[r.value].Put? && events[r.value].key == key
    ensures r.Some? ==> forall j :: r.value < j < n && events[j].Put? ==> events[j].key != key
    ensures r.None? ==> forall j :: 0 <= j < n && events[j].Put? ==> events[j].key != key
  {
    if n == 0 then None
    else if events[n - 1].Put? && events[n - 1].key == key then Some(n - 1)
    else LastPut(events, n - 1, key)
  }

  ghost predicate TakenBetween<K, V>(events: seq<Event<K, V>>, i: nat, n: nat, key: K)
    requires n <= |events|
  {
    exists j :: i < j < n && events[j] == Take(key)
  }

  /** A key is in the table exactly when nothing has taken what was last put under it. */
  lemma {:induction false} LiveIff<K, V>(events: seq<Event<K, V>>, n: nat, key: K)
    requires n <= |events|
    ensures key in Table(events, n) <==>
      LastPut(events, n, key).Some? && !TakenBetween(events, LastPut(events, n, key).value, n, key)
    ensures key in Table(events, n) ==>
      Table(events, n)[key] == events[LastPut(events, n, key).value].value
  {
    if n > 0 {
      LiveIff(events, n - 1, key);
      var before := LastPut(events, n - 1, key);
      if before.Some? && LastPut(events, n, key) == before {
        var i := before.value;
        assert TakenBetween(events, i, n, key) <==>
          TakenBetween(events, i, n - 1, key) || events[n - 1] == Take(key) by {
          if events[n - 1] == Take(key) {
            assert i < n - 1 < n;
          }
        }
      }
    }
  }

  /** Two takes that both find something find things that were put separately. */
  lemma TakesFindDifferentPuts<K, V>(events: seq<Event<K, V>>, j: nat, k: nat)
    requires j < k < |events|
    requires events[j].Take? && events[j].key in Table(events, j)
    requires events[k].Take? && events[k].key in Table(events, k)
    ensures LastPut(events, j, events[j].key) != LastPut(events, k, events[k].key)
  {
    LiveIff(events, j, events[j].key);
    LiveIff(events, k, events[k].key);
  }
}
