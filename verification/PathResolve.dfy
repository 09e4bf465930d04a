/**
 Resolving a user-supplied path under a root, after `ferridis-adapter-fs/src/path.rs`, on a
 platform whose only separator is the slash.

 The code walks the components with a stack. The reference has no stack: a path resolves
 when no prefix of it climbs further than it descended, and a name stays in the result when
 nothing after it climbs back over it.
 */
module PathResolve {
  import opened Wrappers
  import opened Segments

  datatype Component = RootDir | CurDir | ParentDir | Normal(name: string)

  datatype PathError = Escapes(path: string)

  function TrimSlashes(s: string): (r: string)
    ensures r == "" || r[0] != '/'
  {
    if s != "" && s[0] == '/' then TrimSlashes(s[1..]) else s
  }

  /** Empty segments and single dots name nothing. */
  function Named(segments: seq<string>): seq<Component> {
    if segments == [] then []
    else
      var s := segments[0];
      (if s == "" || s == "." then [] else if s == ".." then [ParentDir] else [Normal(s)]) + Named(segments[1..])
  }

  /** The components of a path. Only a leading dot is reported, and a leading slash is a root. */
  function Components(path: string): seq<Component> {
    var segments := Split(path, '/');
    var lead := if path != "" && path[0] == '/' then [RootDir] else if segments[0] == "." then [CurDir] else [];
    lead + Named(segments)
  }

  /** The path below a root that components lead to from `stack`, unless they climb out. */
  function Walk(stack: seq<string>, comps: seq<Component>): Option<seq<string>>
    decreases |comps|
  {
    if comps == [] then Some(stack)
    else match comps[0]
      case CurDir => Walk(stack, comps[1..])
      case Normal(name) => Walk(stack + [name], comps[1..])
      case ParentDir => if stack == [] then None else Walk(stack[..|stack| - 1], comps[1..])
      case RootDir => None
  }

  function Resolved(userPath: string): Result<seq<string>, PathError> {
    match Walk([], Components(TrimSlashes(userPath)))
    case Some(names) => Ok(names)
    case None => Err(Escapes(userPath))
  }

  /** A path buffer, pushed to one name at a time. */
  function PushAll(names: seq<string>): string {
    Join(names, '/')
  }

  /** Pushing a relative path onto another: a slash is added unless one is there. */
  function Under(root: string, inner: string): string {
    if root != "" && root[|root| - 1] != '/' then root + ['/'] + inner else root + inner
  }

  lemma WalkStep(stack: seq<string>, comps: seq<Component>, k: nat)
    requires k < |comps|
    ensures Walk(stack, comps[k..]) == match comps[k]
      case CurDir => Walk(stack, comps[k + 1..])
      case Normal(name) => Walk(stack + [name], comps[k + 1..])
      case ParentDir => (if stack == [] then None else Walk(stack[..|stack| - 1], comps[k + 1..]))
      case RootDir => None
  {
    assert comps[k..][1..] == comps[k + 1..];
  }

  class Root {
    const path: string

    constructor (path: string)
      ensures this.path == path
    {
      this.path := path;
    }

    /** The first loop: the stack of names, or nothing when a component climbs out. */
    static method Accumulate(comps: seq<Component>) returns (accum: Option<seq<string>>)
      ensures accum == Walk([], comps)
    {
      var stack: seq<string> := [];
      for k := 0 to |comps|
        invariant Walk([], comps) == Walk(stack, comps[k..])
      {
        WalkStep(stack, comps, k);
        match comps[k] {
          case CurDir =>
          case Normal(name) => stack := stack + [name];
          case ParentDir =>
            if stack == [] {
              return None;
            }
            stack := stack[..|stack| - 1];
          case RootDir => return None;
        }
      }
      return Some(stack);
    }

    method Resolve(userPath: string) returns (r: Result<string, PathError>)
      ensures Resolved(userPath).Ok? ==> r == Ok(PushAll(Resolved(userPath).value))
      ensures Resolved(userPath).Err? ==> r == Err(Escapes(userPath))
    {
      var comps := Components(TrimSlashes(userPath));
      var accum := Accumulate(comps);
      if accum.None? {
        return Err(Escapes(userPath));
      }
      var names, buf := accum.value, "";
      ResultIsNames(userPath);
      for i := 0 to |names|
        invariant buf == PushAll(names[..i])
      {
        PushAllStep(names, i);
        buf := Under(buf, names[i]);
      }
      assert names[..|names|] == names;
      return Ok(buf);
    }
  }

  lemma PushAllEnds(names: seq<string>, last: string)
    requires IsName(last)
    ensures var s := PushAll(names + [last]); s != "" && s[|s| - 1] != '/'
  {
    assert last[|last| - 1] in last;
    if names == [] {
      assert names + [last] == [last];
    } else {
      JoinLast(names, last, '/');
    }
  }

  lemma PushAllStep(names: seq<string>, k: nat)
    requires k < |names| && AllNames(names)
    ensures PushAll(names[..k + 1]) == Under(PushAll(names[..k]), names[k])
  {
    assert names[..k + 1] == names[..k] + [names[k]];
    if k > 0 {
      JoinLast(names[..k], names[k], '/');
      assert names[..k] == names[..k - 1] + [names[k - 1]];
      PushAllEnds(names[..k - 1], names[k - 1]);
    }
  }

  // ---- The reference without a stack ------------------------------------------------

  /** How far a component descends. */
  function Descent(c: Component): int {
    match c
    case Normal(_) => 1
    case ParentDir => -1
    case _ => 0
  }

  function Depth(comps: seq<Component>): int {
    if comps == [] then 0 else Descent(comps[0]) + Depth(comps[1..])
  }

  /** No prefix has more parent steps than names. */
  ghost predicate StaysInside(comps: seq<Component>) {
    forall k :: 0 <= k <= |comps| ==> Depth(comps[..k]) >= 0
  }

  /** The names that nothing after them climbs back over. */
  ghost function Survivors(comps: seq<Component>): seq<string> {
    if comps == [] then []
    else (if comps[0].Normal? && StaysInside(comps[1..]) then [comps[0].name] else []) + Survivors(comps[1..])
  }

  predicate Relative(comps: seq<Component>) {
    forall k :: 0 <= k < |comps| ==> comps[k] != RootDir
  }

  /** How far components climb above where they start. */
  function Climb(comps: seq<Component>): (d: nat) {
    if comps == [] then 0
    else
      var later := Climb(comps[1..]) - Descent(comps[0]);
      if later < 0 then 0 else later
  }

  lemma {:induction false} ClimbIff(comps: seq<Component>, d: nat)
    ensures Climb(comps) <= d <==> forall k :: 0 <= k <= |comps| ==> Depth(comps[..k]) + d >= 0
  {
    if comps == [] {
      assert forall k :: 0 <= k <= |comps| ==> comps[..k] == [];
    } else {
      var c, rest := comps[0], comps[1..];
      forall k | 0 < k <= |comps|
        ensures Depth(comps[..k]) == Descent(c) + Depth(rest[..k - 1])
      {
        assert comps[..k][1..] == rest[..k - 1];
      }
      if d + Descent(c) >= 0 {
        ClimbIff(rest, d + Descent(c));
        if forall k :: 0 <= k <= |comps| ==> Depth(comps[..k]) + d >= 0 {
          forall k | 0 <= k <= |rest|
            ensures Depth(rest[..k]) + (d + Descent(c)) >= 0
          {
            assert Depth(comps[..k + 1]) + d >= 0;
          }
        }
      } else {
        assert rest[..0] == [];
        assert Depth(comps[..1]) == -1;
      }
    }
  }

  lemma {:induction false} WalkIsReference(stack: seq<string>, comps: seq<Component>)
    requires Relative(comps)
    ensures Walk(stack, comps) ==
      if Climb(comps) <= |stack| then Some(stack[..|stack| - Climb(comps)] + Survivors(comps)) else None
    decreases |comps|
  {
    if comps == [] {
      assert stack[..|stack|] + [] == stack;
    } else {
      var c, rest := comps[0], comps[1..];
      assert Relative(rest);
      ClimbIff(rest, 0);
      match c {
        case CurDir =>
          WalkIsReference(stack, rest);
          assert [] + Survivors(rest) == Survivors(rest);
        case Normal(name) =>
          WalkIsReference(stack + [name], rest);
          if Climb(rest) <= |stack| + 1 {
            WalkName(stack, name, Climb(rest), Survivors(rest));
          }
          assert stack[..|stack|] == stack;
          assert Climb(rest) > 0 ==> [] + Survivors(rest) == Survivors(rest);
        case ParentDir =>
          if stack != [] {
            var n := |stack| - 1;
            WalkIsReference(stack[..n], rest);
            assert Climb(rest) <= n ==> stack[..n][..n - Climb(rest)] == stack[..n - Climb(rest)];
          }
          assert [] + Survivors(rest) == Survivors(rest);
      }
    }
  }

  lemma WalkName(stack: seq<string>, name: string, climb: nat, after: seq<string>)
    requires climb <= |stack| + 1
    ensures (stack + [name])[..|stack| + 1 - climb] + after ==
      if climb == 0 then stack + ([name] + after) else stack[..|stack| + 1 - climb] + after
  {
    if climb == 0 {
      assert (stack + [name])[..|stack| + 1] == stack + [name];
    } else {
      assert (stack + [name])[..|stack| + 1 - climb] == stack[..|stack| + 1 - climb];
    }
  }

  // ---- Components -------------------------------------------------------------------

  lemma {:induction false} NamedConcat(a: seq<string>, b: seq<string>)
    ensures Named(a + b) == Named(a) + Named(b)
  {
    if a == [] {
      assert a + b == b;
    } else {
      assert (a + b)[1..] == a[1..] + b;
      NamedConcat(a[1..], b);
    }
  }

  lemma {:induction false} NamedIsRelative(segments: seq<string>)
    ensures Relative(Named(segments))
    ensures forall k :: 0 <= k < |Named(segments)| ==> Named(segments)[k] != CurDir
  {
    if segments != [] {
      NamedIsRelative(segments[1..]);
    }
  }

  lemma {:induction false} NamedOfTrimmed(s: string)
    ensures Named(Split(TrimSlashes(s), '/')) == Named(Split(s, '/'))
  {
    if s != "" && s[0] == '/' {
      NamedOfTrimmed(s[1..]);
      assert s == "" + ['/'] + s[1..];
      CompleteUnfold("", '/', s[1..]);
      Assoc([""], Complete(s[1..], '/'), [Rest(s[1..], '/')]);
      assert ([""] + Split(s[1..], '/'))[1..] == Split(s[1..], '/');
    }
  }

  /** What the walk depends on: leading slashes and dots make no difference. */
  lemma WalkOfPath(s: string)
    ensures Resolved(s) == match Walk([], Named(Split(s, '/'))) case Some(names) => Ok(names) case None => Err(Escapes(s))
  {
    var t := TrimSlashes(s);
    var named := Named(Split(t, '/'));
    NamedOfTrimmed(s);
    if Split(t, '/')[0] == "." {
      assert ([CurDir] + named)[1..] == named;
    } else {
      assert [] + named == named;
    }
  }

  /** Joining two paths appends their components. */
  lemma NamedJoined(p: string, q: string)
    ensures Named(Split(p + ['/'] + q, '/')) == Named(Split(p, '/')) + Named(Split(q, '/'))
  {
    var r := Rest(p, '/');
    CompleteConcat(p, ['/'] + q, '/');
    Assoc(p, ['/'], q);
    CompleteUnfold(r, '/', q);
    Assoc(r, ['/'], q);
    Assoc(Complete(p, '/'), [r], Complete(q, '/'));
    Assoc(Split(p, '/'), Complete(q, '/'), [Rest(q, '/')]);
    NamedConcat(Split(p, '/'), Split(q, '/'));
  }

  // ---- What resolving promises ------------------------------------------------------

  /** A path resolves exactly when no prefix has more `..` than names, to the names that survive. */
  lemma ResolvesIff(s: string)
    ensures Resolved(s).Ok? <==> StaysInside(Named(Split(s, '/')))
    ensures Resolved(s).Ok? ==> Resolved(s).value == Survivors(Named(Split(s, '/')))
  {
    var comps := Named(Split(s, '/'));
    WalkOfPath(s);
    NamedIsRelative(Split(s, '/'));
    WalkIsReference([], comps);
    ClimbIff(comps, 0);
    assert [] + Survivors(comps) == Survivors(comps);
  }

  predicate IsName(name: string) {
    name != "" && name != "." && name != ".." && '/' !in name
  }

  ghost predicate AllNames(names: seq<string>) {
    forall k :: 0 <= k < |names| ==> IsName(names[k])
  }

  lemma {:induction false} SurvivorsAreNames(segments: seq<string>)
    requires Separated(segments, '/')
    ensures AllNames(Survivors(Named(segments)))
  {
    if segments != [] {
      var s, rest := segments[0], segments[1..];
      SurvivorsAreNames(rest);
      if s == "" || s == "." {
        assert Named(segments) == Named(rest);
      } else {
        assert Named(segments)[1..] == Named(rest);
      }
    }
  }

  /** Only ordinary names are left, so nothing in the result can climb. */
  lemma ResultIsNames(s: string)
    requires Resolved(s).Ok?
    ensures AllNames(Resolved(s).value)
  {
    ResolvesIff(s);
    JoinSplit(s, '/');
    SurvivorsAreNames(Split(s, '/'));
  }

  function Descents(names: seq<string>): seq<Component> {
    seq(|names|, k requires 0 <= k < |names| => Normal(names[k]))
  }

  lemma {:induction false} NamedOfNames(names: seq<string>)
    requires AllNames(names)
    ensures Named(names) == Descents(names)
  {
    if names != [] {
      NamedOfNames(names[1..]);
    }
  }

  lemma NamedOfResult(names: seq<string>)
    requires AllNames(names)
    ensures Named(Split(PushAll(names), '/')) == Descents(names)
  {
    if names == [] {
      CompleteNone("", '/');
      assert [""][1..] == [];
      assert Named([]) == [];
    } else {
      SplitJoin(names, '/');
      NamedOfNames(names);
    }
  }

  lemma {:induction false} WalkDown(stack: seq<string>, names: seq<string>, after: seq<Component>)
    ensures Walk(stack, Descents(names) + after) == Walk(stack + names, after)
    decreases |names|
  {
    if names == [] {
      assert Descents(names) + after == after;
      assert stack + names == stack;
    } else {
      assert (Descents(names) + after)[1..] == Descents(names[1..]) + after;
      WalkDown(stack + [names[0]], names[1..], after);
      assert stack + [names[0]] + names[1..] == stack + names;
    }
  }

  lemma {:induction false} WalkConcat(stack: seq<string>, a: seq<Component>, b: seq<Component>)
    ensures Walk(stack, a + b) == if Walk(stack, a).Some? then Walk(Walk(stack, a).value, b) else None
    decreases |a|
  {
    if a == [] {
      assert a + b == b;
    } else {
      assert (a + b)[0] == a[0] && (a + b)[1..] == a[1..] + b;
      match a[0] {
        case CurDir => WalkConcat(stack, a[1..], b);
        case Normal(name) => WalkConcat(stack + [name], a[1..], b);
        case ParentDir =>
          if stack != [] {
            WalkConcat(stack[..|stack| - 1], a[1..], b);
          }
        case RootDir =>
      }
    }
  }

  /** Resolving a resolved path changes nothing. */
  lemma ResolveIdempotent(s: string)
    requires Resolved(s).Ok?
    ensures Resolved(PushAll(Resolved(s).value)) == Resolved(s)
  {
    var names := Resolved(s).value;
    ResultIsNames(s);
    NamedOfResult(names);
    WalkOfPath(PushAll(names));
    WalkDown([], names, []);
    assert Descents(names) + [] == Descents(names);
    assert [] + names == names;
  }

  /** A resolved path leads the walk to where the path itself did. */
  lemma WalkStaged(p: string, q: string)
    requires Resolved(p).Ok?
    ensures Walk([], Named(Split(PushAll(Resolved(p).value) + ['/'] + q, '/')))
         == Walk(Resolved(p).value, Named(Split(q, '/')))
  {
    var names := Resolved(p).value;
    ResultIsNames(p);
    NamedOfResult(names);
    NamedJoined(PushAll(names), q);
    WalkDown([], names, Named(Split(q, '/')));
    assert [] + names == names;
  }

  lemma WalkJoined(p: string, q: string)
    ensures Walk([], Named(Split(p + ['/'] + q, '/')))
         == if Resolved(p).Ok? then Walk(Resolved(p).value, Named(Split(q, '/'))) else None
  {
    NamedJoined(p, q);
    WalkOfPath(p);
    WalkConcat([], Named(Split(p, '/')), Named(Split(q, '/')));
  }

  /** Resolving may be done in stages; a path that fails cannot be rescued by what follows it. */
  lemma ResolveStaged(p: string, q: string)
    ensures Resolved(p).Ok? ==>
      var staged := PushAll(Resolved(p).value) + ['/'] + q;
      if Resolved(staged).Ok? then Resolved(p + ['/'] + q) == Resolved(staged) else Resolved(p + ['/'] + q).Err?
    ensures Resolved(p).Err? ==> Resolved(p + ['/'] + q).Err?
  {
    WalkJoined(p, q);
    WalkOfPath(p + ['/'] + q);
    if Resolved(p).Ok? {
      WalkStaged(p, q);
      WalkOfPath(PushAll(Resolved(p).value) + ['/'] + q);
    }
  }

  /** Below any root, the joined path has the root's components and then the inner path's. */
  lemma NamedUnder(root: string, inner: string)
    ensures Named(Split(Under(root, inner), '/')) == Named(Split(root, '/')) + Named(Split(inner, '/'))
  {
    NothingNamed();
    if root == "" {
      assert Under(root, inner) == inner;
      assert [] + Named(Split(inner, '/')) == Named(Split(inner, '/'));
    } else if root[|root| - 1] != '/' {
      NamedJoined(root, inner);
    } else {
      var stem := root[..|root| - 1];
      assert root == stem + ['/'];
      NamedUnderSlash(stem, inner);
    }
  }

  lemma NamedUnderSlash(stem: string, inner: string)
    ensures Named(Split(stem + ['/'] + inner, '/')) == Named(Split(stem + ['/'], '/')) + Named(Split(inner, '/'))
  {
    NothingNamed();
    NamedJoined(stem, "");
    NamedJoined(stem, inner);
    assert stem + ['/'] + "" == stem + ['/'];
    assert Named(Split(stem, '/')) + [] == Named(Split(stem, '/'));
  }

  lemma NothingNamed()
    ensures Named(Split("", '/')) == []
  {
    CompleteNone("", '/');
    assert [""][1..] == [];
    assert Named([]) == [];
  }

  /** The absolute path is the root's, with only ordinary names below it. */
  lemma ResultIsUnderRoot(root: Root, s: string)
    requires Resolved(s).Ok?
    ensures Named(Split(Under(root.path, PushAll(Resolved(s).value)), '/'))
         == Named(Split(root.path, '/')) + Descents(Resolved(s).value)
  {
    ResultIsNames(s);
    NamedOfResult(Resolved(s).value);
    NamedUnder(root.path, PushAll(Resolved(s).value));
  }
}
