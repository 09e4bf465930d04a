/**
 The assumption on JSON codecs can be met: a value is written as the unary text of a list
 of numbers from which it can be read back.
 */
module FaithfulCodec {
  import opened Wrappers
  import opened Capability
  import opened Json
  import opened Segments
  import Wallet

  function Zigzag(n: int): nat {
    if n >= 0 then 2 * n else -2 * n - 1
  }

  /** The keys of an object, in an order that depends on nothing but their set. */
  ghost function Listing(keys: set<string>): (order: seq<string>)
    ensures forall k :: k in order <==> k in keys
  {
    if keys == {} then []
    else
      var k :| k in keys;
      [k] + Listing(keys - {k})
  }

  function OfString(s: string): seq<nat> {
    [|s|] + seq(|s|, k requires 0 <= k < |s| => s[k] as nat)
  }

  ghost function Tokens(v: Value): seq<nat>
    decreases v, 1, 0
  {
    match v
    case Null => [0]
    case Bool(b) => [1, if b then 1 else 0]
    case Number(n, e10) => [2, Zigzag(n), Zigzag(e10)]
    case String(s) => [3] + OfString(s)
    case Array(items) => [4, |items|] + OfItems(v, 0)
    case Object(fields) => [5, |Listing(fields.Keys)|] + OfFields(v, Listing(fields.Keys))
  }

  ghost function OfItems(v: Value, k: nat): seq<nat>
    requires v.Array? && k <= |v.items|
    decreases v, 0, |v.items| - k
  {
    if k == |v.items| then [] else Tokens(v.items[k]) + OfItems(v, k + 1)
  }

  ghost function OfFields(v: Value, keys: seq<string>): seq<nat>
    requires v.Object? && forall k :: k in keys ==> k in v.fields
    decreases v, 0, |keys|
  {
    if keys == [] then [] else OfString(keys[0]) + Tokens(v.fields[keys[0]]) + OfFields(v, keys[1..])
  }

  lemma StringPrefix(s: string, r: seq<nat>, s': string, r': seq<nat>)
    requires OfString(s) + r == OfString(s') + r'
    ensures s == s' && r == r'
  {
    var t := OfString(s) + r;
    assert t[0] == |s| && t[0] == |s'|;
    assert forall k :: 0 <= k < |s| ==> t[k + 1] == s[k] as nat && t[k + 1] == s'[k] as nat;
    assert r == t[|s| + 1..] && r' == t[|s| + 1..];
  }

  /** A value is known from the front of any list that starts with its numbers. */
  lemma {:induction false} TokensPrefix(v: Value, r: seq<nat>, v': Value, r': seq<nat>)
    requires Tokens(v) + r == Tokens(v') + r'
    ensures v == v' && r == r'
    decreases v, 2
  {
    assert (Tokens(v) + r)[0] == Tokens(v)[0] && (Tokens(v') + r')[0] == Tokens(v')[0];
    match v {
      case String(s) =>
        Assoc([3], OfString(s), r);
        Assoc([3], OfString(v'.s), r');
        Aligned([3], OfString(s) + r, [3], OfString(v'.s) + r');
        StringPrefix(s, r, v'.s, r');
      case Array(items) =>
        Assoc([4, |items|], OfItems(v, 0), r);
        Assoc([4, |v'.items|], OfItems(v', 0), r');
        Aligned([4, |items|], OfItems(v, 0) + r, [4, |v'.items|], OfItems(v', 0) + r');
        assert [4, |items|][1] == |items| && [4, |v'.items|][1] == |v'.items|;
        ItemsPrefix(v, 0, r, v', r');
      case Object(fields) =>
        ObjectPrefix(v, r, v', r');
      case _ =>
        Aligned(Tokens(v), r, Tokens(v'), r');
        SameScalar(v, v');
    }
  }

  lemma Aligned(h: seq<nat>, r: seq<nat>, h': seq<nat>, r': seq<nat>)
    requires |h| == |h'| && h + r == h' + r'
    ensures h == h' && r == r'
  {
    var t := h + r;
    assert h == t[..|h|] && h' == t[..|h|] && r == t[|h|..] && r' == t[|h|..];
  }

  lemma SameScalar(v: Value, v': Value)
    requires v.Null? || v.Bool? || v.Number?
    requires Tokens(v) == Tokens(v')
    ensures v == v'
  {
    assert Tokens(v)[0] == Tokens(v')[0];
    assert v.Bool? ==> Tokens(v)[1] == Tokens(v')[1];
    assert v.Number? ==> Tokens(v)[1] == Tokens(v')[1] && Tokens(v)[2] == Tokens(v')[2];
  }

  lemma {:induction false} ObjectPrefix(v: Value, r: seq<nat>, v': Value, r': seq<nat>)
    requires v.Object? && v'.Object? && Tokens(v) + r == Tokens(v') + r'
    ensures v == v' && r == r'
    decreases v, 1
  {
    var keys, keys' := Listing(v.fields.Keys), Listing(v'.fields.Keys);
    Assoc([5, |keys|], OfFields(v, keys), r);
    Assoc([5, |keys'|], OfFields(v', keys'), r');
    Aligned([5, |keys|], OfFields(v, keys) + r, [5, |keys'|], OfFields(v', keys') + r');
    assert [5, |keys|][1] == |keys| && [5, |keys'|][1] == |keys'|;
    FieldsPrefix(v, keys, r, v', keys', r');
    assert forall k :: k in v.fields <==> k in keys;
    assert forall k :: k in v'.fields <==> k in keys;
    assert v.fields == v'.fields;
  }

  lemma {:induction false} ItemsPrefix(v: Value, k: nat, r: seq<nat>, v': Value, r': seq<nat>)
    requires v.Array? && v'.Array? && k <= |v.items| == |v'.items|
    requires OfItems(v, k) + r == OfItems(v', k) + r'
    ensures v.items[k..] == v'.items[k..] && r == r'
    decreases v, 0, |v.items| - k
  {
    if k < |v.items| {
      Assoc(Tokens(v.items[k]), OfItems(v, k + 1), r);
      Assoc(Tokens(v'.items[k]), OfItems(v', k + 1), r');
      TokensPrefix(v.items[k], OfItems(v, k + 1) + r, v'.items[k], OfItems(v', k + 1) + r');
      ItemsPrefix(v, k + 1, r, v', r');
      assert v.items[k..] == [v.items[k]] + v.items[k + 1..];
      assert v'.items[k..] == [v'.items[k]] + v'.items[k + 1..];
    } else {
      assert [] + r == r && [] + r' == r';
    }
  }

  lemma {:induction false} FieldsPrefix(v: Value, keys: seq<string>, r: seq<nat>, v': Value, keys': seq<string>, r': seq<nat>)
    requires v.Object? && (forall k :: k in keys ==> k in v.fields)
    requires v'.Object? && (forall k :: k in keys' ==> k in v'.fields)
    requires |keys| == |keys'| && OfFields(v, keys) + r == OfFields(v', keys') + r'
    ensures keys == keys' && r == r'
    ensures forall k :: k in keys ==> v.fields[k] == v'.fields[k]
    decreases v, 0, |keys|
  {
    if keys != [] {
      var key, key' := keys[0], keys'[0];
      var more, more' := OfFields(v, keys[1..]), OfFields(v', keys'[1..]);
      var value, value' := Tokens(v.fields[key]), Tokens(v'.fields[key']);
      assert OfString(key) + value + more + r == OfString(key) + (value + (more + r));
      assert OfString(key') + value' + more' + r' == OfString(key') + (value' + (more' + r'));
      StringPrefix(key, value + (more + r), key', value' + (more' + r'));
      TokensPrefix(v.fields[key], more + r, v'.fields[key'], more' + r');
      FieldsPrefix(v, keys[1..], r, v', keys'[1..], r');
      assert keys == [key] + keys[1..] && keys' == [key'] + keys'[1..];
    } else {
      assert [] + r == r && [] + r' == r';
    }
  }

  /** Each number as a run of ones. */
  function Runs(ns: seq<nat>): seq<string> {
    seq(|ns|, k requires 0 <= k < |ns| => seq(ns[k], _ => '1'))
  }

  ghost function ToText(v: Value): string {
    Terminate(Runs(Tokens(v)), '0')
  }

  /** Whatever was printed as `s`. */
  ghost function Read<T(!new)>(write: T -> string, s: string): Option<T> {
    if exists t :: write(t) == s then
      var t :| write(t) == s;
      Some(t)
    else None
  }

  lemma RunsInjective(a: seq<nat>, b: seq<nat>)
    requires Terminate(Runs(a), '0') == Terminate(Runs(b), '0')
    ensures a == b
  {
    CompleteTerminate(Runs(a), '0', "");
    CompleteTerminate(Runs(b), '0', "");
    assert Terminate(Runs(a), '0') + "" == Terminate(Runs(b), '0') + "";
    CompleteNone("", '0');
    assert Runs(a) + [] == Runs(a) && Runs(b) + [] == Runs(b);
    assert |Runs(a)| == |a| && |Runs(b)| == |b|;
    forall k | 0 <= k < |a|
      ensures a[k] == b[k]
    {
      assert |Runs(a)[k]| == a[k] && |Runs(b)[k]| == b[k];
    }
  }

  lemma ToTextInjective(v: Value, w: Value)
    requires ToText(v) == ToText(w)
    ensures v == w
  {
    RunsInjective(Tokens(v), Tokens(w));
    TokensPrefix(v, [], w, []);
  }

  lemma {:induction false} OnlyDigits(segments: seq<string>)
    requires forall k, c :: 0 <= k < |segments| && c in segments[k] ==> c == '1'
    ensures forall c :: c in Terminate(segments, '0') ==> c == '1' || c == '0'
  {
    if segments != [] {
      assert forall k :: 0 <= k < |segments[1..]| ==> segments[1..][k] == segments[k + 1];
      OnlyDigits(segments[1..]);
    }
  }

  lemma AFaithfulCodecExists()
    ensures exists json: Codec :: json.Faithful()
  {
    var write: Value -> string := v => ToText(v);
    var json := Codec(write, s => Read(write, s));
    forall v
      ensures json.parse(json.toText(v)) == Some(v)
      ensures '\n' !in json.toText(v) && '\r' !in json.toText(v)
    {
      assert write(v) == ToText(v);
      var w := Read(write, ToText(v)).value;
      assert ToText(w) == ToText(v);
      ToTextInjective(w, v);
      OnlyDigits(Runs(Tokens(v)));
    }
    assert json.Faithful();
  }

  /** The wallet's forms of connections and of its index can be read back too. */
  lemma AFaithfulWalletCodecExists()
    ensures exists codec: Wallet.Codec :: codec.Faithful()
  {
    var connection: Wallet.StoredConnection -> string :=
      c => ToText(Array([String(Wallet.Key(c)), String(c.state)]));
    var index: seq<string> -> string := keys => ToText(Array(Strings(keys)));
    var codec := Wallet.Codec(connection, s => Read(connection, s), index, s => Read(index, s));
    forall c
      ensures codec.parseConnection(codec.connectionText(c)) == Some(c)
    {
      var d := Read(connection, connection(c)).value;
      assert connection(d) == connection(c);
      ToTextInjective(Array([String(Wallet.Key(d)), String(d.state)]), Array([String(Wallet.Key(c)), String(c.state)]));
      DisplayInjective(d.capability, c.capability);
    }
    forall keys
      ensures codec.parseIndex(codec.indexText(keys)) == Some(keys)
    {
      var ks := Read(index, index(keys)).value;
      assert index(ks) == index(keys);
      ToTextInjective(Array(Strings(ks)), Array(Strings(keys)));
      assert Strings(ks) == Strings(keys);
      assert forall k :: 0 <= k < |keys| ==> Strings(ks)[k].s == ks[k] && Strings(keys)[k].s == keys[k];
      assert |Strings(ks)| == |ks| && |Strings(keys)| == |keys|;
      assert ks == keys;
    }
    assert codec.Faithful();
  }

  function Strings(ss: seq<string>): seq<Value> {
    seq(|ss|, k requires 0 <= k < |ss| => String(ss[k]))
  }
}
