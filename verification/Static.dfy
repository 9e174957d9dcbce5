/** Static mounts: the boot check, the request matcher and engine ownership of paths (static.go). */
module Static {
  import opened Text
  import opened Hosts

  const Reserved: seq<string> := [
    "/api", "/app", "/auth", "/admin", "/editor", "/docs", "/graphql", "/graphiql",
    "/openapi", "/metrics", "/debug", "/healthz", "/readyz", "/health",
    "/files", "/fleet"]

  const Dotted: seq<string> := ["/openapi"]

  /** The path is the prefix or lies under it. */
  predicate Under(p: string, prefix: string) {
    p == prefix || HasPrefix(p, prefix + "/")
  }

  /** A surface the engine serves itself. */
  ghost predicate EngineOwned(p: string) {
    || (exists i :: 0 <= i < |Reserved| && Under(p, Reserved[i]))
    || (exists i :: 0 <= i < |Dotted| && HasPrefix(p, Dotted[i] + "."))
  }

  /** `isEngineOwnedPath`. */
  method IsEngineOwnedPath(p: string) returns (owned: bool)
    ensures owned <==> EngineOwned(p)
  {
    for i := 0 to |Reserved|
      invariant forall k :: 0 <= k < i ==> !Under(p, Reserved[k])
    {
      if Under(p, Reserved[i]) {
        return true;
      }
    }
    for i := 0 to |Dotted|
      invariant forall k :: 0 <= k < i ==> !HasPrefix(p, Dotted[k] + ".")
    {
      if HasPrefix(p, Dotted[i] + ".") {
        return true;
      }
    }
    return false;
  }

  /** `hasIndex` says the index document could be read from the mounted tree. */
  datatype Mount = Mount(hasTree: bool, path: string, spa: bool, hasIndex: bool)

  datatype Handler = Handler(mount: Mount, prefix: string)

  /** `strings.TrimSuffix(path, "/")`: "/ui/" and "/ui" are one mount, "/" becomes "". */
  function Prefix(path: string): string {
    if path != "" && path[|path| - 1] == '/' then path[..|path| - 1] else path
  }

  ghost predicate Mountable(m: Mount) {
    && m.hasTree
    && m.path != "" && m.path[0] == '/'
    && '*' !in Prefix(m.path) && '{' !in Prefix(m.path)
    && (Prefix(m.path) != "" ==> !EngineOwned(Prefix(m.path)))
    && (m.spa ==> m.hasIndex)
  }

  /** What the boot accepts: mountable mounts, no prefix twice. */
  ghost predicate AllMountable(ms: seq<Mount>) {
    && (forall i :: 0 <= i < |ms| ==> Mountable(ms[i]))
    && (forall i, j :: 0 <= i < j < |ms| ==> Prefix(ms[i].path) != Prefix(ms[j].path))
  }

  function Compiled(ms: seq<Mount>): seq<Handler> {
    seq(|ms|, i requires 0 <= i < |ms| => Handler(ms[i], Prefix(ms[i].path)))
  }

  ghost predicate LongestFirst(hs: seq<Handler>) {
    forall i, j :: 0 <= i < j < |hs| ==> |hs[i].prefix| >= |hs[j].prefix|
  }

  /** `validateStaticMounts`: accepts exactly those, each compiled once, longest prefix first. */
  method ValidateStaticMounts(ms: seq<Mount>) returns (hs: Option<seq<Handler>>)
    ensures hs.Some? <==> AllMountable(ms)
    ensures hs.Some? ==> multiset(hs.value) == multiset(Compiled(ms)) && LongestFirst(hs.value)
    ensures hs.Some? ==> forall i :: 0 <= i < |ms| ==>
              && ms[i].hasTree && ms[i].path != "" && ms[i].path[0] == '/' && (ms[i].spa ==> ms[i].hasIndex)
              && '*' !in ms[i].path && '{' !in ms[i].path
  {
    var out: seq<Handler> := [];
    var seen: set<string> := {};
    for i := 0 to |ms|
      invariant AllMountable(ms[..i])
      invariant out == Compiled(ms[..i])
      invariant forall p :: p in seen <==> exists k :: 0 <= k < i && p == Prefix(ms[k].path)
    {
      var m := ms[i];
      if !m.hasTree || m.path == "" || m.path[0] != '/' {
        assert !Mountable(ms[i]);
        return None;
      }
      var prefix := Prefix(m.path);
      if '*' in prefix || '{' in prefix {
        assert !Mountable(ms[i]);
        return None;
      }
      if prefix in seen {
        return None;
      }
      seen := seen + {prefix};
      var owned := IsEngineOwnedPath(prefix);
      if prefix != "" && owned {
        assert !Mountable(ms[i]);
        return None;
      }
      if m.spa && !m.hasIndex {
        assert !Mountable(ms[i]);
        return None;
      }
      assert ms[..i + 1] == ms[..i] + [m];
      out := out + [Handler(m, prefix)];
    }
    assert ms[..|ms|] == ms;
    var sorted := SortLongestFirst(out);
    return Some(sorted);
  }

  /** Insertion into a list sorted by falling prefix length. */
  function Insert(h: Handler, hs: seq<Handler>): seq<Handler> {
    if hs == [] || |h.prefix| >= |hs[0].prefix| then [h] + hs else [hs[0]] + Insert(h, hs[1..])
  }

  lemma {:induction false} InsertAdds(h: Handler, hs: seq<Handler>)
    ensures multiset(Insert(h, hs)) == multiset(hs) + multiset{h}
    ensures forall x :: x in Insert(h, hs) ==> x == h || x in hs
  {
    if hs != [] && |h.prefix| < |hs[0].prefix| {
      InsertAdds(h, hs[1..]);
      assert hs == [hs[0]] + hs[1..];
    }
  }

  lemma {:induction false} InsertSorts(h: Handler, hs: seq<Handler>)
    requires LongestFirst(hs)
    ensures LongestFirst(Insert(h, hs))
  {
    if hs != [] && |h.prefix| < |hs[0].prefix| {
      InsertSorts(h, hs[1..]);
      InsertAdds(h, hs[1..]);
      var rest := Insert(h, hs[1..]);
      forall j | 0 <= j < |rest| ensures |hs[0].prefix| >= |rest[j].prefix| {
        assert rest[j] in rest;
      }
    }
  }

  method SortLongestFirst(hs: seq<Handler>) returns (r: seq<Handler>)
    ensures LongestFirst(r) && multiset(r) == multiset(hs)
  {
    r := [];
    for i := 0 to |hs|
      invariant LongestFirst(r) && multiset(r) == multiset(hs[..i])
    {
      InsertSorts(hs[i], r);
      InsertAdds(hs[i], r);
      r := Insert(hs[i], r);
      assert hs[..i + 1] == hs[..i] + [hs[i]];
    }
    assert hs[..|hs|] == hs;
  }

  /** The paths one mount claims: for the root mount everything the engine does not own. */
  ghost predicate Claims(prefix: string, p: string) {
    if prefix == "" then !EngineOwned(p) else Under(p, prefix)
  }

  /** `staticMatcher`: the paths that skip authentication and the response cache. */
  method Matches(hs: seq<Handler>, p: string) returns (b: bool)
    ensures b <==> exists i :: 0 <= i < |hs| && Claims(hs[i].prefix, p)
  {
    for i := 0 to |hs|
      invariant forall k :: 0 <= k < i ==> !Claims(hs[k].prefix, p)
    {
      if hs[i].prefix == "" {
        var owned := IsEngineOwnedPath(p);
        if !owned {
          return true;
        }
      } else if Under(p, hs[i].prefix) {
        return true;
      }
    }
    return false;
  }

  /** `serveRoot`: whether the root mount answers rather than refuses. */
  method ServesRoot(verb: string, p: string) returns (serves: bool)
    ensures verb == "GET" || verb == "HEAD" ==> (serves <==> Claims("", p))
    ensures verb != "GET" && verb != "HEAD" ==> !serves
  {
    if verb != "GET" && verb != "HEAD" {
      return false;
    }
    var owned := IsEngineOwnedPath(p);
    return !owned;
  }

  // Boot and request time agree.

  /** A reserved prefix is one segment: its only slash is the first character. */
  predicate OneSegment(r: string) {
    |r| > 1 && forall i :: 0 < i < |r| ==> r[i] != '/'
  }

  lemma ReservedAreOneSegment()
    ensures forall i :: 0 <= i < |Reserved| ==> OneSegment(Reserved[i])
    ensures forall i :: 0 <= i < |Dotted| ==> OneSegment(Dotted[i] + ".")
  {
  }

  /** Two prefixes of one path: a mount under which a reserved segment lies is under it itself. */
  lemma ExtensionStaysFree(prefix: string, p: string, r: string)
    requires prefix != "" && HasPrefix(p, prefix + "/") && OneSegment(r) && Under(p, r)
    ensures Under(prefix, r)
  {
    assert p[|prefix|] == '/';
    assert forall i :: 0 < i < |r| ==> p[i] == r[i];
    assert |prefix| >= |r|;
    assert forall i :: 0 <= i <= |r| ==> p[i] == (r + "/")[i];
    assert forall i :: 0 <= i < |prefix| ==> p[i] == (prefix + "/")[i];
    if |prefix| == |r| {
      assert forall i :: 0 <= i < |r| ==> prefix[i] == p[i] == r[i];
      assert prefix == r;
    } else {
      assert prefix[..|r| + 1] == r + "/";
    }
  }

  lemma DotStaysFree(prefix: string, p: string, d: string)
    requires prefix != "" && HasPrefix(p, prefix + "/") && OneSegment(d) && HasPrefix(p, d)
    ensures HasPrefix(prefix, d)
  {
    assert p[|prefix|] == '/';
    assert forall i :: 0 <= i < |d| ==> p[i] == d[i];
    assert forall i :: 0 <= i < |prefix| ==> p[i] == (prefix + "/")[i];
    assert |prefix| >= |d|;
    assert prefix[..|d|] == d;
  }

  /** A prefix the engine does not own owns nothing of the engine's by extension. */
  lemma FreePrefixStaysFree(prefix: string, p: string)
    requires prefix != "" && !EngineOwned(prefix) && Under(p, prefix)
    ensures !EngineOwned(p)
  {
    ReservedAreOneSegment();
    if p != prefix {
      forall i | 0 <= i < |Reserved| ensures !Under(p, Reserved[i]) {
        if Under(p, Reserved[i]) {
          ExtensionStaysFree(prefix, p, Reserved[i]);
        }
      }
      forall i | 0 <= i < |Dotted| ensures !HasPrefix(p, Dotted[i] + ".") {
        if HasPrefix(p, Dotted[i] + ".") {
          DotStaysFree(prefix, p, Dotted[i] + ".");
        }
      }
    }
  }

  /** No path that skips authentication belongs to the engine, whatever mounts the boot accepted. */
  lemma MatchedPathIsNeverEngineOwned(ms: seq<Mount>, hs: seq<Handler>, i: nat, p: string)
    requires AllMountable(ms) && multiset(hs) == multiset(Compiled(ms))
    requires i < |hs| && Claims(hs[i].prefix, p)
    ensures !EngineOwned(p)
  {
    assert hs[i] in multiset(hs);
    var k :| 0 <= k < |Compiled(ms)| && Compiled(ms)[k] == hs[i];
    assert Mountable(ms[k]);
    if hs[i].prefix != "" {
      FreePrefixStaysFree(hs[i].prefix, p);
    }
  }

  /** With a root mount the matcher is exactly what `serveRoot` answers: the other mounts add nothing. */
  lemma RootMountMatchesWhatItServes(ms: seq<Mount>, hs: seq<Handler>, root: nat, p: string)
    requires AllMountable(ms) && multiset(hs) == multiset(Compiled(ms))
    requires root < |hs| && hs[root].prefix == ""
    ensures (exists i :: 0 <= i < |hs| && Claims(hs[i].prefix, p)) <==> !EngineOwned(p)
  {
    if i :| 0 <= i < |hs| && Claims(hs[i].prefix, p) {
      MatchedPathIsNeverEngineOwned(ms, hs, i, p);
    }
    if !EngineOwned(p) {
      assert Claims(hs[root].prefix, p);
    }
  }

  /** One trailing slash does not make another mount. */
  lemma TrailingSlashIsIgnored(p: string)
    ensures Prefix(p + "/") == p
    ensures p == "" || p[|p| - 1] != '/' ==> Prefix(p) == p
  {
    assert (p + "/")[..|p|] == p;
  }

  /** The engine keeps its own surfaces and everything under them, and the dotted form of its API description. */
  lemma EngineKeepsItsSurfaces(r: string, rest: string)
    requires r in ["/api", "/app", "/auth", "/admin", "/editor", "/docs", "/graphql", "/graphiql", "/openapi",
                   "/metrics", "/debug", "/healthz", "/readyz", "/health", "/files", "/fleet"]
    ensures EngineOwned(r) && EngineOwned(r + "/" + rest)
    ensures EngineOwned("/openapi." + rest)
  {
    var i :| 0 <= i < |Reserved| && Reserved[i] == r;
    assert (r + "/" + rest)[..|r| + 1] == r + "/";
    assert Under(r, Reserved[i]) && Under(r + "/" + rest, Reserved[i]);
    assert Dotted[0] + "." == "/openapi.";
    assert ("/openapi." + rest)[..|"/openapi."|] == "/openapi.";
  }
}
