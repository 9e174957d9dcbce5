/**
 * Custom-route registration and the cross-check of RBAC route grants (route.go, app.go), and what
 * a persisted schema needs to start again (restart.go).
 */
module Grants {
  import opened Text
  import opened Hosts

  /** `rateLimitOk` says a rate limit, if set, has both numbers positive. */
  datatype Route = Route(
    verb: string, path: string, hasHandler: bool, rateLimitOk: bool,
    isPublic: bool, requireRole: string, byteServing: bool)

  /** Route segment to granted actions. */
  type RouteGrants = map<string, seq<string>>

  /** `hasPublic` says the schema declares an anonymous surface, which becomes a role of its own. */
  datatype Schema = Schema(resources: set<string>, roles: map<string, RouteGrants>, hasPublic: bool)

  const API := "/api/"

  /** `firstAPISegment`. */
  function FirstSegment(path: string): string {
    if !HasPrefix(path, API) then ""
    else
      var rest := path[|API|..];
      var i := IndexOf(rest, '/');
      if i >= 0 then rest[..i] else rest
  }

  /** `actionForMethod`. */
  function ActionFor(verb: string): string {
    var v := Upper(verb);
    if v == "GET" then "read"
    else if v == "POST" then "create"
    else if v == "PUT" || v == "PATCH" then "update"
    else if v == "DELETE" then "delete"
    else ""
  }

  predicate KnownVerb(v: string) {
    v == "GET" || v == "POST" || v == "PUT" || v == "PATCH" || v == "DELETE"
  }

  // Registering routes.

  function Key(rt: Route): string {
    Upper(rt.verb) + " " + rt.path
  }

  predicate Literal(path: string) {
    '{' !in path && '*' !in path
  }

  /** Everything `validateRoute` asks of a route by itself. */
  predicate WellShaped(rt: Route) {
    && KnownVerb(Upper(rt.verb)) && rt.hasHandler && HasPrefix(rt.path, API) && rt.rateLimitOk
    && (rt.isPublic ==> Literal(rt.path) && rt.requireRole == "")
    && (rt.byteServing ==> Upper(rt.verb) == "GET" && Literal(rt.path))
    && FirstSegment(rt.path) != ""
  }

  /** Only the schema's resource names enter into it. */
  predicate Registrable(rt: Route, resources: set<string>, seen: set<string>) {
    WellShaped(rt) && FirstSegment(rt.path) !in resources && Key(rt) !in seen
  }

  /** `validateRoute`, which marks an accepted route as seen. */
  method ValidateRoute(rt: Route, s: Schema, seen: set<string>) returns (ok: bool, marked: set<string>)
    ensures ok <==> Registrable(rt, s.resources, seen)
    ensures ok <==>
              && Upper(rt.verb) in {"GET", "POST", "PUT", "PATCH", "DELETE"}
              && rt.hasHandler && "/api/" <= rt.path && rt.rateLimitOk
              && Upper(rt.verb) + " " + rt.path !in seen
              && (rt.isPublic || rt.byteServing ==> '{' !in rt.path && '*' !in rt.path)
              && (rt.isPublic ==> rt.requireRole == "")
              && (rt.byteServing ==> Upper(rt.verb) == "GET")
              && FirstSegment(rt.path) != "" && FirstSegment(rt.path) !in s.resources
    ensures marked == if ok then seen + {Key(rt)} else seen
  {
    marked := seen;
    var verb := Upper(rt.verb);
    if !KnownVerb(verb) || !rt.hasHandler || !HasPrefix(rt.path, API) {
      return false, marked;
    }
    if Key(rt) in seen || !rt.rateLimitOk {
      return false, marked;
    }
    if rt.isPublic && (!Literal(rt.path) || rt.requireRole != "") {
      return false, marked;
    }
    if rt.byteServing && (verb != "GET" || !Literal(rt.path)) {
      return false, marked;
    }
    var first := FirstSegment(rt.path);
    if first == "" || first in s.resources {
      return false, marked;
    }
    return true, marked + {Key(rt)};
  }

  function Keys(routes: seq<Route>): set<string> {
    set rt | rt in routes :: Key(rt)
  }

  class App {
    const schema: Schema
    var routes: seq<Route>
    var started: bool

    constructor (schema: Schema)
      ensures this.schema == schema && routes == [] && !started
    {
      this.schema, routes, started := schema, [], false;
    }

    /** `Register`: before the start, and only a route that collides with nothing. */
    method Register(rt: Route) returns (ok: bool)
      modifies this`routes
      ensures ok <==> !started && Registrable(rt, schema.resources, Keys(old(routes)))
      ensures routes == if ok then old(routes) + [rt.(verb := Upper(rt.verb))] else old(routes)
    {
      if started {
        return false;
      }
      var seen: set<string> := {};
      for i := 0 to |routes|
        invariant seen == Keys(routes[..i])
      {
        seen := seen + {Key(routes[i])};
        assert routes[..i + 1] == routes[..i] + [routes[i]];
      }
      assert routes[..|routes|] == routes;
      ok, seen := ValidateRoute(rt, schema, seen);
      if ok {
        routes := routes + [rt.(verb := Upper(rt.verb))];
      }
    }
  }

  /** A binary that registers `declared`, in order, and stops at the first refusal. */
  function RegisterAll(declared: seq<Route>, resources: set<string>): Option<seq<Route>>
    decreases |declared|
  {
    if declared == [] then Some([])
    else
      var n := |declared| - 1;
      var before := RegisterAll(declared[..n], resources);
      if before.Some? && Registrable(declared[n], resources, Keys(before.value))
      then Some(before.value + [declared[n].(verb := Upper(declared[n].verb))]) else None
  }

  /** Two routes may not share verb and path. */
  ghost predicate PairsDiffer(a: Route, b: Route) {
    Upper(a.verb) != Upper(b.verb) || a.path != b.path
  }

  lemma KeyInjective(a: Route, b: Route)
    requires KnownVerb(Upper(a.verb)) && KnownVerb(Upper(b.verb))
    ensures Key(a) == Key(b) <==> !PairsDiffer(a, b)
  {
    var u, v := Upper(a.verb), Upper(b.verb);
    if Key(a) == Key(b) {
      SpaceAfterVerb(u, a.path);
      SpaceAfterVerb(v, b.path);
      assert |u| == |v|;
      assert u == Key(a)[..|u|] && v == Key(b)[..|v|];
      assert a.path == Key(a)[|u| + 1..] && b.path == Key(b)[|v| + 1..];
    }
  }

  lemma SpaceAfterVerb(v: string, path: string)
    requires KnownVerb(v)
    ensures IndexOf(v + " " + path, ' ') == |v|
  {
    var k := v + " " + path;
    assert k[|v|] == ' ';
    assert forall i :: 0 <= i < |v| ==> v[i] != ' ';
    assert forall i :: 0 <= i < |v| ==> k[i] == v[i];
  }

  /** The declared routes that all register, said without the loop. */
  ghost predicate AllRegistrable(declared: seq<Route>, resources: set<string>) {
    && (forall i :: 0 <= i < |declared| ==> WellShaped(declared[i]) && FirstSegment(declared[i].path) !in resources)
    && (forall i, j :: 0 <= i < j < |declared| ==> PairsDiffer(declared[i], declared[j]))
  }

  ghost predicate Uppercased(declared: seq<Route>, routes: seq<Route>) {
    && |routes| == |declared|
    && forall i :: 0 <= i < |declared| ==> routes[i] == declared[i].(verb := Upper(declared[i].verb))
  }

  lemma KeyUppercased(rt: Route)
    ensures Key(rt.(verb := Upper(rt.verb))) == Key(rt)
  {
    UpperIdempotent(rt.verb);
  }

  lemma KeysUppercased(declared: seq<Route>, routes: seq<Route>)
    requires Uppercased(declared, routes)
    ensures Keys(routes) == Keys(declared)
  {
    forall i | 0 <= i < |declared| ensures Key(routes[i]) == Key(declared[i]) {
      KeyUppercased(declared[i]);
    }
    forall k | k in Keys(declared) ensures k in Keys(routes) {
      var i :| 0 <= i < |declared| && k == Key(declared[i]);
      assert k == Key(routes[i]);
    }
    forall k | k in Keys(routes) ensures k in Keys(declared) {
      var i :| 0 <= i < |routes| && k == Key(routes[i]);
      assert k == Key(declared[i]);
    }
  }

  /** Registration succeeds exactly for well-shaped, collision-free, pairwise different routes. */
  lemma {:induction false} RegisterAllIff(declared: seq<Route>, resources: set<string>)
    ensures RegisterAll(declared, resources).Some? <==> AllRegistrable(declared, resources)
    ensures RegisterAll(declared, resources).Some? ==> Uppercased(declared, RegisterAll(declared, resources).value)
    decreases |declared|
  {
    if declared != [] {
      var n := |declared| - 1;
      var front := declared[..n];
      RegisterAllIff(front, resources);
      var before := RegisterAll(front, resources);
      if before.Some? {
        KeysUppercased(front, before.value);
        NewKeyIff(front, declared[n], resources);
      }
      assert declared == front + [declared[n]];
      AllRegistrableSnoc(front, declared[n], resources);
    }
  }

  lemma NewKeyIff(front: seq<Route>, rt: Route, resources: set<string>)
    requires AllRegistrable(front, resources)
    ensures WellShaped(rt) ==> (Key(rt) !in Keys(front) <==> forall i :: 0 <= i < |front| ==> PairsDiffer(front[i], rt))
  {
    if WellShaped(rt) {
      forall i | 0 <= i < |front| ensures PairsDiffer(front[i], rt) <==> Key(front[i]) != Key(rt) {
        KeyInjective(front[i], rt);
      }
    }
  }

  lemma AllRegistrableSnoc(front: seq<Route>, rt: Route, resources: set<string>)
    ensures AllRegistrable(front + [rt], resources) <==>
            && AllRegistrable(front, resources)
            && WellShaped(rt) && FirstSegment(rt.path) !in resources
            && forall i :: 0 <= i < |front| ==> PairsDiffer(front[i], rt)
  {
    var all := front + [rt];
    assert all[|front|] == rt;
    assert forall i :: 0 <= i < |front| ==> all[i] == front[i];
  }

  // The grants.

  /** Something `validateRouteGrants` complains about: a dead segment, or a dead action on a live one. */
  datatype Problem = DeadSegment(role: string, segment: string) | DeadAction(role: string, segment: string,
      action: string)

  ghost predicate Serves(routes: seq<Route>, segment: string) {
    segment != "" && exists i :: 0 <= i < |routes| && FirstSegment(routes[i].path) == segment
  }

  ghost predicate Provides(routes: seq<Route>, segment: string, action: string) {
    action != "" && segment != "" &&
    exists i :: 0 <= i < |routes| && FirstSegment(routes[i].path) == segment && ActionFor(routes[i].verb) == action
  }

  ghost predicate Granted(s: Schema, role: string, segment: string) {
    role in s.roles && segment in s.roles[role]
  }

  ghost predicate IsProblem(s: Schema, routes: seq<Route>, p: Problem) {
    && Granted(s, p.role, p.segment)
    && match p
       case DeadSegment(_, segment) => !Serves(routes, segment)
       case DeadAction(role, segment, action) =>
         && Serves(routes, segment)
         && action in s.roles[role][segment] && action != "*" && !Provides(routes, segment, action)
  }

  /** Every granted segment is served and every granted action but `*` has a registered method. */
  ghost predicate GrantsServed(s: Schema, routes: seq<Route>) {
    forall role, segment :: Granted(s, role, segment) ==>
      && Serves(routes, segment)
      && forall a :: a in s.roles[role][segment] && a != "*" ==> Provides(routes, segment, a)
  }

  ghost predicate GrantsAccepted(s: Schema, routes: seq<Route>) {
    routes == [] || GrantsServed(s, routes)
  }

  lemma ServedIffNoProblem(s: Schema, routes: seq<Route>)
    ensures GrantsServed(s, routes) <==> forall p :: !IsProblem(s, routes, p)
  {
    if !GrantsServed(s, routes) {
      var role, segment :| Granted(s, role, segment) &&
                           !(Serves(routes, segment) &&
                             forall a :: a in s.roles[role][segment] && a != "*" ==> Provides(routes, segment, a));
      if !Serves(routes, segment) {
        assert IsProblem(s, routes, DeadSegment(role, segment));
      } else {
        var a :| a in s.roles[role][segment] && a != "*" && !Provides(routes, segment, a);
        assert IsProblem(s, routes, DeadAction(role, segment, a));
      }
    }
    if p :| IsProblem(s, routes, p) {
      assert Granted(s, p.role, p.segment);
    }
  }

  /** What the registered routes serve, segment by segment. */
  ghost predicate IsServed(served: map<string, set<string>>, routes: seq<Route>) {
    && (forall seg :: seg in served <==> Serves(routes, seg))
    && (forall seg, a :: seg in served ==> (a in served[seg] <==> Provides(routes, seg, a)))
  }

  method ServedActions(routes: seq<Route>) returns (served: map<string, set<string>>)
    ensures IsServed(served, routes)
  {
    served := map[];
    for i := 0 to |routes|
      invariant IsServed(served, routes[..i])
    {
      var seg, action := FirstSegment(routes[i].path), ActionFor(routes[i].verb);
      ServedSnoc(served, routes, i);
      if seg != "" {
        served := WithRoute(served, seg, action);
      }
    }
    assert routes[..|routes|] == routes;
  }

  /** One more route under `seg`. */
  function WithRoute(served: map<string, set<string>>, seg: string, action: string): map<string, set<string>> {
    var actions := if seg in served then served[seg] else {};
    served[seg := if action != "" then actions + {action} else actions]
  }

  lemma ServedSnoc(served: map<string, set<string>>, routes: seq<Route>, i: nat)
    requires i < |routes| && IsServed(served, routes[..i])
    ensures var seg, action := FirstSegment(routes[i].path), ActionFor(routes[i].verb);
            IsServed(if seg != "" then WithRoute(served, seg, action) else served, routes[..i + 1])
  {
    var seg, action := FirstSegment(routes[i].path), ActionFor(routes[i].verb);
    ServesSnoc(routes, i);
    ServedExtends(served, routes[..i], routes[..i + 1], seg, action);
  }

  lemma ServedExtends(served: map<string, set<string>>, now: seq<Route>, next: seq<Route>, seg: string, action: string)
    requires IsServed(served, now)
    requires forall g :: Serves(next, g) <==> Serves(now, g) || (g != "" && g == seg)
    requires forall g, a :: Provides(next, g, a) <==>
              Provides(now, g, a) || (g != "" && a != "" && g == seg && a == action)
    requires forall g, a :: Provides(now, g, a) ==> Serves(now, g)
    ensures IsServed(if seg != "" then WithRoute(served, seg, action) else served, next)
  {
    var after := if seg != "" then WithRoute(served, seg, action) else served;
    forall g, a | g in after ensures a in after[g] <==> Provides(next, g, a) {
      if g == seg && seg != "" {
        assert seg !in served ==> !Provides(now, seg, a);
      } else {
        assert g in served;
      }
    }
  }

  lemma ServesSnoc(routes: seq<Route>, i: nat)
    requires i < |routes|
    ensures forall seg :: Serves(routes[..i + 1], seg) <==>
              Serves(routes[..i], seg) || (seg != "" && seg == FirstSegment(routes[i].path))
    ensures forall seg, a :: Provides(routes[..i + 1], seg, a) <==>
              Provides(routes[..i], seg, a) ||
              (seg != "" && a != "" && seg == FirstSegment(routes[i].path) && a == ActionFor(routes[i].verb))
    ensures forall seg, a :: Provides(routes[..i], seg, a) ==> Serves(routes[..i], seg)
  {
    var now, next := routes[..i], routes[..i + 1];
    assert next == now + [routes[i]];
    forall seg ensures Serves(next, seg) <==> Serves(now, seg) || (seg != "" && seg == FirstSegment(routes[i].path)) {
      if Serves(now, seg) {
        var k :| 0 <= k < |now| && FirstSegment(now[k].path) == seg;
        assert next[k] == now[k];
      }
      assert next[i] == routes[i];
    }
    forall seg, a ensures Provides(next, seg, a) <==>
      Provides(now, seg, a) || (seg != "" && a != "" && seg == FirstSegment(routes[i].path)
          && a == ActionFor(routes[i].verb)) {
      if Provides(now, seg, a) {
        var k :| 0 <= k < |now| && FirstSegment(now[k].path) == seg && ActionFor(now[k].verb) == a;
        assert next[k] == now[k];
      }
      assert next[i] == routes[i];
    }
  }

  datatype Verdict = Accepted(warnings: seq<(string, string)>) | Refused(problems: seq<Problem>)

  /**
   * `validateRouteGrants`: with routes it refuses exactly the dead grants, naming each; with none
   * it warns of every grant and accepts.
   */
  method ValidateRouteGrants(s: Schema, routes: seq<Route>) returns (v: Verdict)
    ensures v.Accepted? <==> GrantsAccepted(s, routes)
    ensures v.Accepted? <==> routes == [] || GrantsReachable(s, routes)
    ensures v.Refused? ==> forall p :: p in v.problems <==> IsProblem(s, routes, p)
    ensures v.Accepted? && routes != [] ==> v.warnings == []
    ensures v.Accepted? && routes == [] ==> forall role, seg :: (role, seg) in v.warnings <==> Granted(s, role, seg)
  {
    GrantsServedIff(s, routes);
    var has := SchemaHasRouteGrants(s);
    if !has {
      return Accepted([]);
    }
    if |routes| == 0 {
      var warnings := InertGrants(s);
      return Accepted(warnings);
    }
    var problems := DeadGrants(s, routes);
    ServedIffNoProblem(s, routes);
    if |problems| > 0 {
      assert IsProblem(s, routes, problems[0]);
      return Refused(problems);
    }
    return Accepted([]);
  }

  method SchemaHasRouteGrants(s: Schema) returns (has: bool)
    ensures has <==> exists role, seg :: Granted(s, role, seg)
  {
    var left := s.roles.Keys;
    while left != {}
      invariant left <= s.roles.Keys
      invariant forall role, seg :: Granted(s, role, seg) ==> role in left
      decreases left
    {
      var role :| role in left;
      if |s.roles[role]| > 0 {
        var seg :| seg in s.roles[role];
        assert Granted(s, role, seg);
        return true;
      }
      left := left - {role};
    }
    return false;
  }

  method InertGrants(s: Schema) returns (warnings: seq<(string, string)>)
    ensures forall role, seg :: (role, seg) in warnings <==> Granted(s, role, seg)
  {
    warnings := [];
    var roles := SortedKeys(s.roles);
    for i := 0 to |roles|
      invariant forall role, seg :: (role, seg) in warnings <==> role in roles[..i] && Granted(s, role, seg)
    {
      var segments := SortedKeys(s.roles[roles[i]]);
      ghost var start := warnings;
      for j := 0 to |segments|
        invariant forall role, seg :: (role, seg) in warnings <==>
                  (role, seg) in start || (role == roles[i] && seg in segments[..j])
      {
        warnings := warnings + [(roles[i], segments[j])];
      }
    }
  }

  method DeadGrants(s: Schema, routes: seq<Route>) returns (problems: seq<Problem>)
    ensures forall p :: p in problems <==> IsProblem(s, routes, p)
  {
    var served := ServedActions(routes);
    problems := [];
    var roles := SortedKeys(s.roles);
    for i := 0 to |roles|
      invariant forall p :: p in problems <==> p.role in roles[..i] && IsProblem(s, routes, p)
    {
      var more := DeadGrantsOf(s, routes, roles[i], served);
      problems := problems + more;
    }
  }

  method DeadGrantsOf(s: Schema, routes: seq<Route>, role: string, served: map<string, set<string>>)
      returns (problems: seq<Problem>)
    requires role in s.roles && IsServed(served, routes)
    ensures forall p :: p in problems <==> p.role == role && IsProblem(s, routes, p)
  {
    problems := [];
    var segments := SortedKeys(s.roles[role]);
    for i := 0 to |segments|
      invariant forall p :: p in problems <==> p.role == role && p.segment in segments[..i] && IsProblem(s, routes, p)
    {
      var more := DeadGrantsOn(s, routes, role, segments[i], served);
      problems := problems + more;
    }
  }

  method DeadGrantsOn(s: Schema, routes: seq<Route>, role: string, segment: string, served: map<string, set<string>>)
    returns (problems: seq<Problem>)
    requires Granted(s, role, segment) && IsServed(served, routes)
    ensures forall p :: p in problems <==> p.role == role && p.segment == segment && IsProblem(s, routes, p)
  {
    if segment !in served {
      return [DeadSegment(role, segment)];
    }
    problems := [];
    var actions := s.roles[role][segment];
    for i := 0 to |actions|
      invariant forall p :: p in problems <==>
                  p.DeadAction? && p.role == role && p.segment == segment && p.action in actions[..i]
                      && IsProblem(s, routes, p)
    {
      if actions[i] != "*" && actions[i] !in served[segment] {
        problems := problems + [DeadAction(role, segment, actions[i])];
      }
    }
  }

  // What the check means for requests.

  /** The path is `/api/` and the segment, or goes on behind it. */
  predicate Under(path: string, segment: string) {
    path == "/api/" + segment || "/api/" + segment + "/" <= path
  }

  /** `methodsForAction`, `actionForMethod` backwards. */
  function MethodsFor(action: string): set<string> {
    if action == "read" then {"GET"}
    else if action == "create" then {"POST"}
    else if action == "update" then {"PUT", "PATCH"}
    else if action == "delete" then {"DELETE"}
    else {}
  }

  /** The two tables are inverse to each other. */
  lemma ActionIff(verb: string, action: string)
    requires action != ""
    ensures ActionFor(verb) == action <==> Upper(verb) in MethodsFor(action)
  {
  }

  lemma SegmentOfRest(rest: string, seg: string)
    ensures var i := IndexOf(rest, '/');
            (if i >= 0 then rest[..i] else rest) == seg <==> '/' !in seg && (rest == seg || seg + "/" <= rest)
  {
    var i := IndexOf(rest, '/');
    if '/' !in seg && seg + "/" <= rest {
      assert rest[|seg|] == (seg + "/")[|seg|];
      assert forall n :: 0 <= n < |seg| ==> rest[n] == seg[n];
      assert i == |seg| && rest[..i] == seg;
    }
    if i >= 0 && rest[..i] == seg {
      assert seg + "/" == rest[..i + 1];
    }
  }

  /** A path lies under exactly one segment, and that is the one both checks read off it. */
  lemma SegmentIff(path: string, seg: string)
    requires seg != ""
    ensures FirstSegment(path) == seg <==> '/' !in seg && Under(path, seg)
  {
    if HasPrefix(path, API) {
      var rest := path[|API|..];
      assert path == API + rest;
      SegmentOfRest(rest, seg);
      assert path == API + seg <==> rest == seg;
      assert API + seg + "/" <= path <==> seg + "/" <= rest;
    }
  }

  /** Every granted segment has a route under it, and every granted action but `*` one of its methods. */
  ghost predicate GrantsReachable(s: Schema, routes: seq<Route>) {
    forall role, seg :: Granted(s, role, seg) ==>
      && seg != "" && '/' !in seg
      && (exists i :: 0 <= i < |routes| && Under(routes[i].path, seg))
      && forall a :: a in s.roles[role][seg] && a != "*" ==>
           exists i :: 0 <= i < |routes| && Under(routes[i].path, seg) && Upper(routes[i].verb) in MethodsFor(a)
  }

  lemma ServesIff(routes: seq<Route>, seg: string)
    ensures Serves(routes, seg) <==>
              seg != "" && '/' !in seg && exists i :: 0 <= i < |routes| && Under(routes[i].path, seg)
  {
    if seg != "" {
      forall i | 0 <= i < |routes| ensures FirstSegment(routes[i].path) == seg <==>
          '/' !in seg && Under(routes[i].path, seg) {
        SegmentIff(routes[i].path, seg);
      }
    }
  }

  lemma ProvidesIff(routes: seq<Route>, seg: string, a: string)
    requires seg != "" && '/' !in seg
    ensures Provides(routes, seg, a) <==>
              exists i :: 0 <= i < |routes| && Under(routes[i].path, seg) && Upper(routes[i].verb) in MethodsFor(a)
  {
    forall i | 0 <= i < |routes|
      ensures (a != "" && FirstSegment(routes[i].path) == seg && ActionFor(routes[i].verb) == a) <==>
              (Under(routes[i].path, seg) && Upper(routes[i].verb) in MethodsFor(a))
    {
      SegmentIff(routes[i].path, seg);
      if a != "" {
        ActionIff(routes[i].verb, a);
      }
    }
  }

  /** The grants the check accepts, over paths and methods. */
  lemma GrantsServedIff(s: Schema, routes: seq<Route>)
    ensures GrantsServed(s, routes) <==> GrantsReachable(s, routes)
  {
    forall role, seg | Granted(s, role, seg)
      ensures Serves(routes, seg) <==>
                seg != "" && '/' !in seg && exists i :: 0 <= i < |routes| && Under(routes[i].path, seg)
    {
      ServesIff(routes, seg);
    }
    forall role, seg, a | Granted(s, role, seg) && a in s.roles[role][seg] && seg != "" && '/' !in seg
      ensures Provides(routes, seg, a) <==>
                exists i :: 0 <= i < |routes| && Under(routes[i].path, seg) && Upper(routes[i].verb) in MethodsFor(a)
    {
      ProvidesIff(routes, seg, a);
    }
  }

  /** The segments the RBAC middleware leaves to their own handlers. */
  const SelfAuthorized: set<string> := {"transaction", "summary", "ask"}

  /** `resourceFromPath`: the second part of the path, when the first is `api`; "" for none to enforce. */
  function EnforcedResource(path: string): string {
    var rest := if HasPrefix(path, "/") then path[1..] else path;
    var i := IndexOf(rest, '/');
    if i < 0 || rest[..i] != "api" then ""
    else
      var behind := rest[i + 1..];
      var j := IndexOf(behind, '/');
      var part := if j >= 0 then behind[..j] else behind;
      if part in SelfAuthorized then "" else part
  }

  /** `actionFromMethod`, on the method of a request. */
  function EnforcedAction(verb: string): string {
    if verb == "GET" || verb == "HEAD" then "read"
    else if verb == "POST" then "create"
    else if verb == "PUT" || verb == "PATCH" then "update"
    else if verb == "DELETE" then "delete"
    else ""
  }

  lemma EnforcedBehindApi(rest: string)
    ensures var i := IndexOf(rest, '/');
            var part := if i >= 0 then rest[..i] else rest;
            EnforcedResource("/api/" + rest) == if part in SelfAuthorized then "" else part
  {
    var path := "/api/" + rest;
    var tail := "api/" + rest;
    assert path[1..] == tail && HasPrefix(path, "/");
    SlashAfterApi(tail, rest);
  }

  lemma SlashAfterApi(tail: string, rest: string)
    requires tail == "api/" + rest
    ensures IndexOf(tail, '/') == 3 && tail[..3] == "api" && tail[4..] == rest
  {
    assert tail[0] == 'a' && tail[1] == 'p' && tail[2] == 'i' && tail[3] == '/';
  }

  /**
   * The check at the start and the middleware at request time read the same resource off a path
   * under `/api/` if and only if its segment is not one of the three that authorize themselves.
   */
  lemma SegmentIsEnforcedIff(path: string)
    requires HasPrefix(path, API)
    ensures EnforcedResource(path) == FirstSegment(path) <==> FirstSegment(path) !in SelfAuthorized
    ensures FirstSegment(path) in SelfAuthorized ==> EnforcedResource(path) == ""
  {
    var rest := path[|API|..];
    assert path == API + rest;
    EnforcedBehindApi(rest);
  }

  /** The verbs of registered routes mean the same action to both. */
  lemma ActionIsEnforced(verb: string)
    requires KnownVerb(Upper(verb))
    ensures EnforcedAction(Upper(verb)) == ActionFor(verb) != ""
    ensures EnforcedAction("HEAD") == ActionFor("GET")
  {
    assert "HEAD" != "GET";
  }

  /**
   * A request on path and method of this route is evaluated as this resource and action: a public
   * route is passed through before anything is evaluated.
   */
  ghost predicate Evaluated(rt: Route, seg: string, a: string) {
    !rt.isPublic && EnforcedResource(rt.path) == seg && EnforcedAction(Upper(rt.verb)) == a
  }

  /**
   * An accepted grant of an action has effect on requests if and only if the middleware enforces
   * its segment and a route that is not public has one of the action's methods there.
   */
  lemma AcceptedGrantIsEvaluatedIff(s: Schema, routes: seq<Route>, role: string, seg: string, a: string)
    requires routes != [] && GrantsAccepted(s, routes)
    requires forall i :: 0 <= i < |routes| ==> WellShaped(routes[i])
    requires Granted(s, role, seg) && a in s.roles[role][seg] && a != "*"
    ensures (exists i :: 0 <= i < |routes| && Evaluated(routes[i], seg, a)) <==>
              && seg !in SelfAuthorized
              && exists i :: 0 <= i < |routes| && !routes[i].isPublic && Under(routes[i].path, seg)
                             && Upper(routes[i].verb) in MethodsFor(a)
  {
    assert Provides(routes, seg, a) && Serves(routes, seg);
    ServesIff(routes, seg);
    forall i | 0 <= i < |routes|
      ensures Evaluated(routes[i], seg, a) <==>
                && seg !in SelfAuthorized
                && !routes[i].isPublic && Under(routes[i].path, seg) && Upper(routes[i].verb) in MethodsFor(a)
    {
      EvaluatedIff(routes[i], seg, a);
    }
  }

  lemma EvaluatedIff(rt: Route, seg: string, a: string)
    requires WellShaped(rt) && seg != "" && '/' !in seg && a != ""
    ensures Evaluated(rt, seg, a) <==>
              && seg !in SelfAuthorized
              && !rt.isPublic && Under(rt.path, seg) && Upper(rt.verb) in MethodsFor(a)
  {
    SegmentIsEnforcedIff(rt.path);
    SegmentIff(rt.path, seg);
    ActionIsEnforced(rt.verb);
    ActionIff(rt.verb, a);
  }

  /** A grant on a segment with public routes only is accepted, and no request is evaluated for it. */
  lemma PublicRouteLeavesGrantUnused(s: Schema, rt: Route, role: string, seg: string)
    requires WellShaped(rt) && rt.isPublic && FirstSegment(rt.path) == seg
    requires s.roles == map[role := map[seg := [ActionFor(rt.verb)]]]
    ensures GrantsAccepted(s, [rt]) && !Evaluated(rt, seg, ActionFor(rt.verb))
  {
    ActionIsEnforced(rt.verb);
    assert [rt][0] == rt;
    assert Serves([rt], seg) && Provides([rt], seg, ActionFor(rt.verb));
  }

  // Across time.

  /** With routes, acceptance survives more routes. */
  lemma MoreRoutesKeepGrants(s: Schema, routes: seq<Route>, more: seq<Route>)
    requires GrantsServed(s, routes)
    ensures GrantsServed(s, routes + more)
  {
    var all := routes + more;
    forall role, segment | Granted(s, role, segment)
      ensures Serves(all, segment) && forall a :: a in s.roles[role][segment] && a != "*" ==> Provides(all, segment, a)
    {
      var i :| 0 <= i < |routes| && FirstSegment(routes[i].path) == segment;
      assert all[i] == routes[i];
      forall a | a in s.roles[role][segment] && a != "*" ensures Provides(all, segment, a) {
        assert Provides(routes, segment, a);
        var k :| 0 <= k < |routes| && FirstSegment(routes[k].path) == segment && ActionFor(routes[k].verb) == a;
        assert all[k] == routes[k];
      }
    }
  }

  /** From no routes at all it need not: a first route under another segment kills an inert grant. */
  lemma FirstRouteCanKillGrants(s: Schema, rt: Route, role: string, segment: string)
    requires Granted(s, role, segment) && FirstSegment(rt.path) != segment
    ensures GrantsAccepted(s, []) && !GrantsAccepted(s, [rt])
  {
    assert !Serves([rt], segment);
  }

  /** Registering changes verbs to upper case, which no grant can tell. */
  lemma GrantsIgnoreCase(s: Schema, declared: seq<Route>, routes: seq<Route>)
    requires Uppercased(declared, routes)
    ensures GrantsAccepted(s, declared) <==> GrantsAccepted(s, routes)
  {
    forall i | 0 <= i < |declared| ensures ActionFor(routes[i].verb) == ActionFor(declared[i].verb) {
      UpperIdempotent(declared[i].verb);
    }
    forall seg ensures Serves(declared, seg) <==> Serves(routes, seg) {
      SameServed(declared, routes, seg);
      SameServed(routes, declared, seg);
    }
    forall seg, a ensures Provides(declared, seg, a) <==> Provides(routes, seg, a) {
      SameProvided(declared, routes, seg, a);
      SameProvided(routes, declared, seg, a);
    }
  }

  lemma SameServed(xs: seq<Route>, ys: seq<Route>, seg: string)
    requires |xs| == |ys| && forall i :: 0 <= i < |xs| ==> xs[i].path == ys[i].path
    ensures Serves(xs, seg) ==> Serves(ys, seg)
  {
    if Serves(xs, seg) {
      var i :| 0 <= i < |xs| && FirstSegment(xs[i].path) == seg;
      assert FirstSegment(ys[i].path) == seg;
    }
  }

  lemma SameProvided(xs: seq<Route>, ys: seq<Route>, seg: string, a: string)
    requires |xs| == |ys| && forall i :: 0 <= i < |xs| ==>
              xs[i].path == ys[i].path && ActionFor(xs[i].verb) == ActionFor(ys[i].verb)
    ensures Provides(xs, seg, a) ==> Provides(ys, seg, a)
  {
    if Provides(xs, seg, a) {
      var i :| 0 <= i < |xs| && FirstSegment(xs[i].path) == seg && ActionFor(xs[i].verb) == a;
      assert FirstSegment(ys[i].path) == seg;
    }
  }

  /** The schema text as the loader sees it: unreadable, readable but invalid, or valid. */
  datatype Document = Unreadable | Invalid(parsed: Schema) | Valid(parsed: Schema)

  /** `persistBootSchema` lets the text through to the file. */
  ghost predicate PersistAccepts(raw: Document, routes: seq<Route>) {
    (!raw.Unreadable? ==> GrantsAccepted(raw.parsed, routes)) && raw.Valid?
  }

  /** `persistBootSchema`: the grants first, then the gate boot runs. */
  method PersistBootSchema(raw: Document, routes: seq<Route>) returns (ok: bool)
    ensures ok <==> PersistAccepts(raw, routes)
  {
    if !raw.Unreadable? {
      var v := ValidateRouteGrants(raw.parsed, routes);
      if v.Refused? {
        return false;
      }
    }
    return raw.Valid?;
  }

  /** The roles the environment names for signups, social logins and the chat channel; empty for none. */
  datatype Configured = Configured(signup: string, oauth: string, chat: string)

  /** The roles of the policy compiled from a schema. */
  function PolicyRoles(s: Schema): set<string> {
    s.roles.Keys + (if s.hasPublic then {"$public"} else {})
  }

  /** `New` refuses a configured role the schema does not declare. */
  predicate RolesDeclared(s: Schema, c: Configured) {
    && (c.signup != "" ==> c.signup in PolicyRoles(s))
    && (c.oauth != "" ==> c.oauth in PolicyRoles(s))
    && (c.chat != "" ==> c.chat in s.roles)
  }

  /** The anonymous surface is a role for signups and social logins, and none for the chat channel. */
  lemma PublicRoleIsDeclaredIff(s: Schema)
    requires "$public" !in s.roles
    ensures RolesDeclared(s, Configured("$public", "$public", "")) <==> s.hasPublic
    ensures !RolesDeclared(s, Configured("", "", "$public"))
  {
    assert "$public" != "";
  }

  /** The configured roles are declared exactly when each one that is set is a role of the schema. */
  lemma DeclaredRolesSuffice(s: Schema, c: Configured)
    requires forall r :: r in {c.signup, c.oauth, c.chat} && r != "" ==> r in s.roles
    ensures RolesDeclared(s, c)
  {
  }

  /**
   * A start on that text: the gate of `New`, its configured roles, the binary's registrations, the
   * grant check of `Start`.
   */
  ghost predicate Starts(raw: Document, declared: seq<Route>, c: Configured) {
    && raw.Valid?
    && RolesDeclared(raw.parsed, c)
    && var routes := RegisterAll(declared, raw.parsed.resources);
       routes.Some? && GrantsAccepted(raw.parsed, routes.value)
  }

  /** No declared route lives under a name the schema makes a resource. */
  ghost predicate NoTakenSegment(s: Schema, declared: seq<Route>) {
    forall i :: 0 <= i < |declared| ==> FirstSegment(declared[i].path) !in s.resources
  }

  /** The accepted text passes the boot gate and the grant check at the next start of the same binary. */
  lemma PersistedPassesBothGates(raw: Document, declared: seq<Route>, running: Schema)
    requires RegisterAll(declared, running.resources).Some?
    requires PersistAccepts(raw, RegisterAll(declared, running.resources).value)
    ensures raw.Valid? && GrantsAccepted(raw.parsed, declared)
    ensures forall routes :: Uppercased(declared, routes) ==> GrantsAccepted(raw.parsed, routes)
  {
    RegisterAllIff(declared, running.resources);
    GrantsIgnoreCase(raw.parsed, declared, RegisterAll(declared, running.resources).value);
    forall routes | Uppercased(declared, routes) ensures GrantsAccepted(raw.parsed, routes) {
      GrantsIgnoreCase(raw.parsed, declared, routes);
    }
  }

  /**
   * A schema that the running binary persists starts again if and only if it declares the configured
   * roles and makes no resource out of a segment one of the binary's routes lives under: persist
   * looks at neither.
   */
  lemma PersistedStartsIff(raw: Document, declared: seq<Route>, running: Schema, c: Configured)
    requires RegisterAll(declared, running.resources).Some?
    requires PersistAccepts(raw, RegisterAll(declared, running.resources).value)
    ensures Starts(raw, declared, c) <==> NoTakenSegment(raw.parsed, declared) && RolesDeclared(raw.parsed, c)
  {
    PersistedPassesBothGates(raw, declared, running);
    RegisterAllIff(declared, running.resources);
    RegisterAllIff(declared, raw.parsed.resources);
  }

  /** `^[a-z][a-z0-9_]*$`, the names the schema validator lets a resource have. */
  predicate ResourceName(s: string) {
    && s != "" && 'a' <= s[0] <= 'z'
    && forall i :: 0 < i < |s| ==> 'a' <= s[i] <= 'z' || '0' <= s[i] <= '9' || s[i] == '_'
  }

  /**
   * Any running binary with a route under a segment that can name a resource: a valid schema with
   * that resource persists and does not start, whatever roles are configured.
   */
  lemma PersistedSchemaCanRefuseToStart(declared: seq<Route>, running: Schema, i: nat, taken: Schema, c: Configured)
    requires RegisterAll(declared, running.resources).Some? && i < |declared|
    requires ResourceName(FirstSegment(declared[i].path))
    requires taken == Schema({FirstSegment(declared[i].path)}, map[], false)
    ensures PersistAccepts(Valid(taken), RegisterAll(declared, running.resources).value)
    ensures !Starts(Valid(taken), declared, c)
  {
    PersistedStartsIff(Valid(taken), declared, running, c);
    assert !NoTakenSegment(taken, declared);
  }

  /** Any running binary with a configured role: a valid schema without roles persists and does not start. */
  lemma RoleLessSchemaRefusesToStart(declared: seq<Route>, running: Schema, bare: Schema, c: Configured)
    requires RegisterAll(declared, running.resources).Some?
    requires bare == Schema({}, map[], false) && (c.signup != "" || c.oauth != "" || c.chat != "")
    ensures PersistAccepts(Valid(bare), RegisterAll(declared, running.resources).value)
    ensures NoTakenSegment(bare, declared) && !Starts(Valid(bare), declared, c)
  {
    PersistedStartsIff(Valid(bare), declared, running, c);
  }

  /**
   * With no route under a segment that can name a resource, every persisted schema with legal
   * resource names and the configured roles starts again.
   */
  lemma UnreachableSegmentsAreSafe(raw: Document, declared: seq<Route>, running: Schema, c: Configured)
    requires RegisterAll(declared, running.resources).Some?
    requires PersistAccepts(raw, RegisterAll(declared, running.resources).value)
    requires forall r :: r in raw.parsed.resources ==> ResourceName(r)
    requires forall i :: 0 <= i < |declared| ==> !ResourceName(FirstSegment(declared[i].path))
    ensures Starts(raw, declared, c) <==> RolesDeclared(raw.parsed, c)
  {
    PersistedStartsIff(raw, declared, running, c);
  }
}
