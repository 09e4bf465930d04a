/**
 Capability references, `ferridis://<registry>/<namespace>/<id>@<version>`, as
 `ferridis-core/src/capability.rs` parses and displays them, and the mesh paths that
 `ferridis-protocol/src/mesh.rs` derives from them.
 */
module Capability {
  import opened Wrappers
  import opened Segments

  datatype RawRef = RawRef(registry: string, namespace: string, id: string, version: string)

  datatype RefError = BadScheme | MissingVersion | BadVersion | TooFewSegments | EmptySegment

  const SCHEME := "ferridis://"

  predicate VersionChar(c: char) {
    '0' <= c <= '9' || c == '.'
  }

  /** `v` and then at least one digit or dot, in any arrangement. */
  predicate IsVersion(s: string) {
    |s| > 1 && s[0] == 'v' && forall k :: 1 <= k < |s| ==> VersionChar(s[k])
  }

  ghost predicate WellFormed(r: RawRef) {
    && r.registry != "" && '/' !in r.registry
    && r.namespace != ""
    && r.id != "" && '/' !in r.id
    && IsVersion(r.version)
  }

  /** A reference that parsing can produce. */
  type CapabilityRef = r: RawRef | WellFormed(r) witness RawRef("r", "n", "i", "v1")

  function LastIndexOf(s: string, c: char): (i: Option<nat>)
    ensures i.Some? ==> i.value < |s| && s[i.value] == c && forall k :: i.value < k < |s| ==> s[k] != c
    ensures i.None? ==> c !in s
    decreases |s|
  {
    if s == "" then None
    else if s[|s| - 1] == c then Some(|s| - 1)
    else LastIndexOf(s[..|s| - 1], c)
  }

  function Parse(url: string): Result<CapabilityRef, RefError> {
    if !(SCHEME <= url) then Err(BadScheme)
    else
      var rest := url[|SCHEME|..];
      match LastIndexOf(rest, '@')
      case None => Err(MissingVersion)
      case Some(at) =>
        var path, version := rest[..at], rest[at + 1..];
        if !IsVersion(version) then Err(BadVersion)
        else
          var segments := Split(path, '/');
          var n := |segments|;
          if n < 3 then Err(TooFewSegments)
          else
            var registry, id := segments[0], segments[n - 1];
            var namespace := Join(segments[1..n - 1], '/');
            if registry == "" || namespace == "" || id == "" then Err(EmptySegment)
            else
              assert '/' !in registry && '/' !in id by { JoinSplit(path, '/'); }
              Ok(RawRef(registry, namespace, id, version))
  }

  function Path(r: RawRef): string {
    r.registry + ['/'] + r.namespace + ['/'] + r.id
  }

  function Display(r: CapabilityRef): string {
    SCHEME + Path(r) + ['@'] + r.version
  }

  // ---- Splitting at the last separator ----------------------------------------------

  lemma SplitLast(x: string, y: string, sep: char)
    requires sep !in y
    ensures Split(x + [sep] + y, sep) == Split(x, sep) + [y]
  {
    var last := Rest(x, sep);
    Assoc(x, [sep], y);
    Assoc(last, [sep], y);
    CompleteConcat(x, [sep] + y, sep);
    CompleteUnfold(last, sep, y);
    CompleteNone(y, sep);
  }

  lemma SplitFirst(x: string, y: string, sep: char)
    requires sep !in x
    ensures Split(x + [sep] + y, sep) == [x] + Split(y, sep)
  {
    CompleteUnfold(x, sep, y);
    Assoc([x], Complete(y, sep), [Rest(y, sep)]);
  }

  lemma SplitPath(r: RawRef)
    requires '/' !in r.registry && '/' !in r.id
    ensures Split(Path(r), '/') == [r.registry] + Split(r.namespace, '/') + [r.id]
  {
    SplitFirst(r.registry, r.namespace, '/');
    SplitLast(r.registry + ['/'] + r.namespace, r.id, '/');
  }

  lemma JoinEnds(segments: seq<string>, sep: char)
    requires |segments| >= 3
    ensures Join(segments, sep)
         == segments[0] + [sep] + Join(segments[1..|segments| - 1], sep) + [sep] + segments[|segments| - 1]
  {
    var n := |segments|;
    var front, last := segments[..n - 1], segments[n - 1];
    assert segments == front + [last] && front[1..] == segments[1..n - 1];
    JoinLast(front, last, sep);
  }

  lemma {:induction false} LastIndexOfAppended(x: string, c: char, y: string)
    requires c !in y
    ensures LastIndexOf(x + [c] + y, c) == Some(|x|)
    decreases |y|
  {
    var s := x + [c] + y;
    if y != "" {
      var front, last := y[..|y| - 1], y[|y| - 1];
      assert last in y;
      assert s[|s| - 1] == last && s[..|s| - 1] == x + [c] + front;
      LastIndexOfAppended(x, c, front);
    } else {
      assert s == x + [c];
    }
  }

  /** A version is `v` and then one or more digits and dots. */
  lemma VersionIff(s: string)
    ensures IsVersion(s) <==> |s| >= 2 && s[0] == 'v' && forall c :: c in s[1..] ==> '0' <= c <= '9' || c == '.'
  {
    assert forall k :: 1 <= k < |s| ==> s[k] in s[1..];
  }

  lemma Unscoped(url: string)
    requires !("ferridis://" <= url)
    ensures Parse(url) == Err(BadScheme)
  {
  }

  lemma Unversioned(rest: string)
    requires '@' !in rest
    ensures Parse(SCHEME + rest) == Err(MissingVersion)
  {
    assert (SCHEME + rest)[|SCHEME|..] == rest;
  }

  /** What is wrong with a path and a version decides the error, the version first. */
  lemma PathFaults(path: string, version: string)
    requires '@' !in version
    ensures var r, segments := Parse(SCHEME + (path + ['@'] + version)), Split(path, '/');
      && (r == Err(BadVersion) <==> !IsVersion(version))
      && (r == Err(TooFewSegments) <==> IsVersion(version) && |segments| < 3)
      && (IsVersion(version) && |segments| >= 3 ==>
           (r == Err(EmptySegment) <==>
             segments[0] == "" || segments[|segments| - 1] == "" || Join(segments[1..|segments| - 1], '/') == ""))
      && (r.Ok? <==> IsVersion(version) && |segments| >= 3 && r != Err(EmptySegment))
  {
    var rest := path + ['@'] + version;
    assert (SCHEME + rest)[|SCHEME|..] == rest;
    LastIndexOfAppended(path, '@', version);
    assert rest[..|path|] == path && rest[|path| + 1..] == version;
  }

  // ---- Round trips ------------------------------------------------------------------

  /** What is displayed for an accepted string is that string. */
  lemma DisplayOfParse(url: string)
    requires Parse(url).Ok?
    ensures Display(Parse(url).value) == url
  {
    var rest := url[|SCHEME|..];
    var at := LastIndexOf(rest, '@').value;
    JoinSplit(rest[..at], '/');
    JoinEnds(Split(rest[..at], '/'), '/');
    assert rest == rest[..at] + ['@'] + rest[at + 1..];
    assert url == SCHEME + rest;
  }

  /** A reference put together from its parts parses exactly when no part is empty and the version is one. */
  lemma ParseIff(registry: string, namespace: string, id: string, version: string)
    requires '/' !in registry && '/' !in id && '@' !in version
    ensures var r := RawRef(registry, namespace, id, version);
      && (Parse(SCHEME + Path(r) + ['@'] + version).Ok? <==> WellFormed(r))
      && (WellFormed(r) ==> Parse(SCHEME + Path(r) + ['@'] + version) == Ok(r))
  {
    var r := RawRef(registry, namespace, id, version);
    var rest := Path(r) + ['@'] + version;
    var url := SCHEME + Path(r) + ['@'] + version;
    assert url == SCHEME + rest && url[|SCHEME|..] == rest;
    LastIndexOfAppended(Path(r), '@', version);
    assert rest[..|Path(r)|] == Path(r) && rest[|Path(r)| + 1..] == version;
    SplitPath(r);
    var middle := Split(namespace, '/');
    var segments := [registry] + middle + [id];
    assert segments[1..|segments| - 1] == middle;
    JoinSplit(namespace, '/');
  }

  /**
   What is to be read from a string that stands behind the registry: the version follows its
   last `@`, the id what remains after the last `/` before that, and the namespace the rest.
   */
  function Behind(registry: string, x: string): Option<RawRef> {
    match LastIndexOf(x, '@')
    case None => None
    case Some(at) =>
      var path, version := x[..at], x[at + 1..];
      match LastIndexOf(path, '/')
      case None => None
      case Some(slash) =>
        var namespace, id := path[..slash], path[slash + 1..];
        if namespace == "" || id == "" || !IsVersion(version) then None
        else Some(RawRef(registry, namespace, id, version))
  }

  lemma TooFewParts(registry: string, id: string, version: string)
    requires '/' !in registry && '/' !in id && '@' !in version
    ensures Parse(SCHEME + (registry + ['/'] + id + ['@'] + version)).Err?
  {
    var path := registry + ['/'] + id;
    var rest := path + ['@'] + version;
    assert (SCHEME + rest)[|SCHEME|..] == rest;
    LastIndexOfAppended(path, '@', version);
    assert rest[..|path|] == path;
    SplitFirst(registry, id, '/');
    CompleteNone(id, '/');
  }

  lemma NoVersion(registry: string, x: string)
    requires '@' !in registry && '@' !in x
    ensures Parse(SCHEME + (registry + ['/'] + x)).Err?
  {
    var rest := registry + ['/'] + x;
    assert (SCHEME + rest)[|SCHEME|..] == rest;
    assert '@' !in rest;
  }

  lemma EnoughParts(r: RawRef)
    requires r.registry != "" && '/' !in r.registry && '/' !in r.id && '@' !in r.version
    ensures var url := SCHEME + (r.registry + ['/'] + (r.namespace + ['/'] + r.id + ['@'] + r.version));
      && (Parse(url).Ok? <==> r.namespace != "" && r.id != "" && IsVersion(r.version))
      && (Parse(url).Ok? ==> Parse(url) == Ok(r))
  {
    assert SCHEME + (r.registry + ['/'] + (r.namespace + ['/'] + r.id + ['@'] + r.version))
        == SCHEME + Path(r) + ['@'] + r.version;
    ParseIff(r.registry, r.namespace, r.id, r.version);
  }

  lemma PathIsCut(registry: string, path: string, version: string)
    requires registry != "" && '/' !in registry && '@' !in version
    ensures var p := Parse(SCHEME + (registry + ['/'] + (path + ['@'] + version)));
      match LastIndexOf(path, '/')
      case None => p.Err?
      case Some(slash) =>
        && (p.Ok? <==> path[..slash] != "" && path[slash + 1..] != "" && IsVersion(version))
        && (p.Ok? ==> p == Ok(RawRef(registry, path[..slash], path[slash + 1..], version)))
  {
    match LastIndexOf(path, '/')
    case None =>
      TooFewParts(registry, path, version);
      assert registry + ['/'] + (path + ['@'] + version) == registry + ['/'] + path + ['@'] + version;
    case Some(slash) =>
      assert path == path[..slash] + ['/'] + path[slash + 1..];
      EnoughParts(RawRef(registry, path[..slash], path[slash + 1..], version));
  }

  /** Whatever follows a registry without `/` and `@`, parsing reads exactly that. */
  lemma ParseBehind(registry: string, x: string)
    requires registry != "" && '/' !in registry && '@' !in registry
    ensures var p, q := Parse(SCHEME + (registry + ['/'] + x)), Behind(registry, x);
      && (p.Ok? <==> q.Some?)
      && (p.Ok? ==> p.value == q.value)
  {
    match LastIndexOf(x, '@')
    case None =>
      NoVersion(registry, x);
    case Some(at) =>
      var path, version := x[..at], x[at + 1..];
      assert x == path + ['@'] + version;
      PathIsCut(registry, path, version);
  }

  /** Every reference is read back from what is displayed for it. */
  lemma ParseOfDisplay(r: CapabilityRef)
    ensures Parse(Display(r)) == Ok(r)
  {
    assert '@' !in r.version;
    ParseIff(r.registry, r.namespace, r.id, r.version);
  }

  /** Distinct references are displayed differently. */
  lemma DisplayInjective(r: CapabilityRef, s: CapabilityRef)
    ensures Display(r) == Display(s) <==> r == s
  {
    ParseOfDisplay(r);
    ParseOfDisplay(s);
  }

  // ---- Mesh paths -------------------------------------------------------------------

  function MeshPath(r: CapabilityRef, file: string): string {
    r.registry + ['/'] + r.namespace + ['/'] + r.id + ['/'] + r.version + ['/'] + file
  }

  lemma PeelLast(x: string, y: string, x': string, y': string, sep: char)
    requires sep !in y && sep !in y'
    requires x + [sep] + y == x' + [sep] + y'
    ensures x == x' && y == y'
  {
    SplitLast(x, y, sep);
    SplitLast(x', y', sep);
    var all := Split(x, sep) + [y];
    assert y == all[|all| - 1] && y' == all[|all| - 1];
    var s := x + [sep] + y;
    assert x == s[..|s| - |y| - 1] && x' == s[..|s| - |y| - 1];
  }

  lemma PeelFirst(x: string, y: string, x': string, y': string, sep: char)
    requires sep !in x && sep !in x'
    requires x + [sep] + y == x' + [sep] + y'
    ensures x == x' && y == y'
  {
    IndexOfPrefix(x, sep, y);
    IndexOfPrefix(x', sep, y');
    var s := x + [sep] + y;
    assert x == s[..|x|] && x' == s[..|x|];
    assert y == s[|x| + 1..] && y' == s[|x| + 1..];
  }

  /** The segments of a mesh path: registry, namespace, id, version and file, in this order. */
  lemma MeshPathIs(r: CapabilityRef, file: string)
    requires '/' !in file
    ensures Split(MeshPath(r, file), '/')
         == [r.registry] + Split(r.namespace, '/') + [r.id] + [r.version] + [file]
  {
    assert '/' !in r.version;
    SplitPath(r);
    SplitLast(Path(r), r.version, '/');
    SplitLast(Path(r) + ['/'] + r.version, file, '/');
  }

  /** Distinct references live at distinct mesh paths. */
  lemma MeshPathInjective(r: CapabilityRef, file: string, r': CapabilityRef, file': string)
    requires '/' !in file && '/' !in file'
    requires MeshPath(r, file) == MeshPath(r', file')
    ensures r == r' && file == file'
  {
    assert '/' !in r.version && '/' !in r'.version;
    PeelLast(Path(r) + ['/'] + r.version, file, Path(r') + ['/'] + r'.version, file', '/');
    PeelLast(Path(r), r.version, Path(r'), r'.version, '/');
    PeelLast(r.registry + ['/'] + r.namespace, r.id, r'.registry + ['/'] + r'.namespace, r'.id, '/');
    PeelFirst(r.registry, r.namespace, r'.registry, r'.namespace, '/');
  }
}
