/**
  The route registrations of `createServer` (server/index.ts) as a constant
  table from (verb, path) to guard and handler, and the dispatch decision a
  request meets: no route, a gate refusal, or the handler with the gate's
  payload. The base `authMiddleware` is imported by the server but guards no
  route; the `BaseAuth` guard exists only so that this can be stated.
 */
module RouteTable {
  import opened Common
  import opened Crypto
  import AuthMiddleware

  datatype Verb = Get | Post | Put

  datatype Guard = Unguarded | BaseAuth | StudentAuth | TherapistAuth

  datatype Handler =
    | Health | Demo | Ping
    | StudentSignup | StudentLogin | TherapistSignup | TherapistLogin
    | GetStudentProfile | UpdateStudentProfile | GetStudentProgress | UpdateGameProgress | GetStudentStats
    | GetTherapistDashboard | AssignStudent | GetAssignedStudentProgress | GenerateWeeklyReport

  /** A path is kept as its segments: "/api/student/profile" is ["api", "student", "profile"]. */
  datatype Route = Route(verb: Verb, path: seq<string>, guard: Guard, handler: Handler)

  /** The body the health route replies with: `{ status: "ok" }`. */
  const HealthStatus := "ok"

  const Routes: seq<Route> := [
    Route(Get, ["api", "health"], Unguarded, Health),
    Route(Get, ["api", "demo"], Unguarded, Demo),
    Route(Get, ["api", "ping"], Unguarded, Ping),
    Route(Post, ["api", "auth", "student", "signup"], Unguarded, StudentSignup),
    Route(Post, ["api", "auth", "student", "login"], Unguarded, StudentLogin),
    Route(Post, ["api", "auth", "therapist", "signup"], Unguarded, TherapistSignup),
    Route(Post, ["api", "auth", "therapist", "login"], Unguarded, TherapistLogin),
    Route(Get, ["api", "student", "profile"], StudentAuth, GetStudentProfile),
    Route(Put, ["api", "student", "profile"], StudentAuth, UpdateStudentProfile),
    Route(Get, ["api", "student", "progress"], StudentAuth, GetStudentProgress),
    Route(Put, ["api", "student", "progress"], StudentAuth, UpdateGameProgress),
    Route(Get, ["api", "student", "stats"], StudentAuth, GetStudentStats),
    Route(Get, ["api", "therapist", "dashboard"], TherapistAuth, GetTherapistDashboard),
    Route(Post, ["api", "therapist", "assign-student"], TherapistAuth, AssignStudent),
    Route(Get, StudentProgressPath, TherapistAuth, GetAssignedStudentProgress),
    Route(Get, StudentReportPath, TherapistAuth, GenerateWeeklyReport)
  ]

  /** The two registrations with a parameter. */
  const StudentProgressPath: seq<string> := ["api", "therapist", "student", ":studentId", "progress"]
  const StudentReportPath: seq<string> := ["api", "therapist", "student", ":studentId", "report"]

  /** The path's area under /api/: "student" for "/api/student/profile". */
  function Area(path: seq<string>): string
  {
    if |path| >= 2 then path[1] else ""
  }

  /** A `:name` segment of a registered path is a parameter. */
  predicate IsParam(segment: string)
  {
    |segment| > 0 && segment[0] == ':'
  }

  /** A parameter captures any non-empty segment; any other segment must be matched as written. */
  predicate SegmentMatches(pattern: string, segment: string)
  {
    if IsParam(pattern) then segment != "" else pattern == segment
  }

  /** A request path matches a registered path segment by segment. */
  predicate PathMatches(pattern: seq<string>, path: seq<string>)
  {
    if pattern == [] then path == []
    else path != [] && SegmentMatches(pattern[0], path[0]) && PathMatches(pattern[1..], path[1..])
  }

  /** Matching, stated position by position: equal lengths and every segment matched. */
  lemma {:induction false} PathMatchesEverywhere(pattern: seq<string>, path: seq<string>)
    ensures PathMatches(pattern, path) <==>
      |pattern| == |path| && forall k :: 0 <= k < |path| ==> SegmentMatches(pattern[k], path[k])
  {
    if pattern != [] && path != [] {
      PathMatchesEverywhere(pattern[1..], path[1..]);
      if |pattern| == |path| && forall k :: 0 <= k < |path| ==> SegmentMatches(pattern[k], path[k]) {
        assert forall k :: 0 <= k < |path| - 1 ==> SegmentMatches(pattern[1..][k], path[1..][k]) by {
          forall k | 0 <= k < |path| - 1 ensures SegmentMatches(pattern[1..][k], path[1..][k]) {
            assert SegmentMatches(pattern[k + 1], path[k + 1]);
          }
        }
      }
    }
  }

  /** A path without parameters matches exactly itself. */
  lemma PlainPathMatchesItself(pattern: seq<string>, path: seq<string>)
    requires forall k :: 0 <= k < |pattern| ==> !IsParam(pattern[k])
    ensures PathMatches(pattern, path) <==> pattern == path
  {
    PathMatchesEverywhere(pattern, path);
    if PathMatches(pattern, path) {
      assert forall k :: 0 <= k < |path| ==> pattern[k] == path[k];
    }
  }

  /** `req.params`: the request's segments at the parameter positions, in order. */
  function Params(pattern: seq<string>, path: seq<string>): (r: seq<string>)
    requires PathMatches(pattern, path)
    ensures |r| <= |path|
    ensures forall x :: x in r ==> x in path && x != ""
  {
    if pattern == [] then []
    else (if IsParam(pattern[0]) then [path[0]] else []) + Params(pattern[1..], path[1..])
  }

  /** The first registration whose verb and path match, as Express tries them in order. */
  function Lookup(routes: seq<Route>, verb: Verb, path: seq<string>): (r: Option<Route>)
    ensures r.Some? ==> r.value in routes && r.value.verb == verb && PathMatches(r.value.path, path)
    ensures r.None? <==> forall k :: 0 <= k < |routes| ==> routes[k].verb != verb || !PathMatches(routes[k].path, path)
  {
    if routes == [] then None
    else if routes[0].verb == verb && PathMatches(routes[0].path, path) then Some(routes[0])
    else Lookup(routes[1..], verb, path)
  }

  /** The registration Express picks is the first one that matches. */
  lemma {:induction false} LookupFindsFirst(routes: seq<Route>, verb: Verb, path: seq<string>, k: nat)
    requires k < |routes| && routes[k].verb == verb && PathMatches(routes[k].path, path)
    requires forall j :: 0 <= j < k ==> routes[j].verb != verb || !PathMatches(routes[j].path, path)
    ensures Lookup(routes, verb, path) == Some(routes[k])
  {
    if k > 0 {
      assert routes[1..][k - 1] == routes[k];
      LookupFindsFirst(routes[1..], verb, path, k - 1);
    }
  }

  /** The guard in front of a route, as a gate outcome; an unguarded route proceeds without a user. */
  function Gate(guard: Guard, header: Option<string>, verify: string -> Option<Claims>): (r: Option<AuthMiddleware.Outcome>)
    ensures r.None? <==> guard == Unguarded
  {
    match guard
    case Unguarded => None
    case BaseAuth => Some(AuthMiddleware.Authenticate(header, verify))
    case StudentAuth => Some(AuthMiddleware.StudentGate(header, verify))
    case TherapistAuth => Some(AuthMiddleware.TherapistGate(header, verify))
  }

  /** `params` holds the values of the route's `:name` segments. */
  datatype Decision =
    | NotRouted
    | Refused(status: nat, error: string)
    | Handled(handler: Handler, user: Option<Claims>, params: seq<string>)

  /** What a request meets: the handler runs only when its guard calls next(). */
  function Dispatch(verb: Verb, path: seq<string>, header: Option<string>, verify: string -> Option<Claims>)
    : (r: Decision)
    ensures r.NotRouted? <==> Lookup(Routes, verb, path).None?
    ensures r.Handled? ==> r.handler == Lookup(Routes, verb, path).value.handler
    ensures r.Handled? ==> r.params == Params(Lookup(Routes, verb, path).value.path, path)
    ensures r.Handled? && r.user.None? ==> Lookup(Routes, verb, path).value.guard == Unguarded
    ensures r.Handled? && r.user.Some? ==>
      Gate(Lookup(Routes, verb, path).value.guard, header, verify) == Some(AuthMiddleware.Proceed(r.user.value))
    ensures r.Refused? ==>
      Gate(Lookup(Routes, verb, path).value.guard, header, verify) == Some(AuthMiddleware.Deny(r.status, r.error))
  {
    match Lookup(Routes, verb, path)
    case None => NotRouted
    case Some(route) =>
      var params := Params(route.path, path);
      match Gate(route.guard, header, verify)
      case None => Handled(route.handler, None, params)
      case Some(outcome) =>
        if outcome.Deny? then Refused(outcome.status, outcome.error)
        else Handled(route.handler, Some(outcome.user), params)
  }

  /** Each (verb, path) pair is registered once. */
  lemma RoutesUnique()
    ensures forall i, j :: 0 <= i < j < |Routes| ==>
      Routes[i].verb != Routes[j].verb || Routes[i].path != Routes[j].path
  {
  }

  /** The guard a route's area calls for: the role gate of its own area, none under /api/auth/, and never the bare gate. */
  predicate GuardFitsArea(r: Route)
  {
    && (Area(r.path) == "student" <==> r.guard == StudentAuth)
    && (Area(r.path) == "therapist" <==> r.guard == TherapistAuth)
    && (Area(r.path) == "auth" ==> r.guard == Unguarded)
    && r.guard != BaseAuth
  }

  /** The open and /api/auth/ registrations carry no guard. */
  lemma OpenRoutesFit()
    ensures forall k :: 0 <= k < 7 ==> GuardFitsArea(Routes[k])
  {
    assert GuardFitsArea(Routes[0]) && GuardFitsArea(Routes[1]) && GuardFitsArea(Routes[2]);
    assert GuardFitsArea(Routes[3]) && GuardFitsArea(Routes[4]);
    assert GuardFitsArea(Routes[5]) && GuardFitsArea(Routes[6]);
  }

  /** The /api/student/ and /api/therapist/ registrations carry their area's role gate. */
  lemma RoleRoutesFit()
    ensures forall k :: 7 <= k < |Routes| ==> GuardFitsArea(Routes[k])
  {
    assert GuardFitsArea(Routes[7]) && GuardFitsArea(Routes[8]) && GuardFitsArea(Routes[9]);
    assert GuardFitsArea(Routes[10]) && GuardFitsArea(Routes[11]);
    assert GuardFitsArea(Routes[12]) && GuardFitsArea(Routes[13]);
    assert GuardFitsArea(Routes[14]) && GuardFitsArea(Routes[15]);
  }

  /** Every registration carries the guard its area calls for. */
  lemma EveryRouteFitsArea()
    ensures forall r :: r in Routes ==> GuardFitsArea(r)
  {
    OpenRoutesFit();
    RoleRoutesFit();
    forall r | r in Routes ensures GuardFitsArea(r) {
      var k :| 0 <= k < |Routes| && Routes[k] == r;
    }
  }

  /** Exactly the /api/student/ routes carry the student guard. */
  lemma StudentRoutesGuarded()
    ensures forall r :: r in Routes ==> (Area(r.path) == "student" <==> r.guard == StudentAuth)
  {
    EveryRouteFitsArea();
  }

  /** Exactly the /api/therapist/ routes carry the therapist guard. */
  lemma TherapistRoutesGuarded()
    ensures forall r :: r in Routes ==> (Area(r.path) == "therapist" <==> r.guard == TherapistAuth)
  {
    EveryRouteFitsArea();
  }

  /** The sign-up and login routes are open, and the base gate guards no route on its own. */
  lemma AuthRoutesOpen()
    ensures forall r :: r in Routes ==> (Area(r.path) == "auth" ==> r.guard == Unguarded)
    ensures forall r :: r in Routes ==> r.guard != BaseAuth
  {
    EveryRouteFitsArea();
  }

  /** The health route answers every request, whatever its header. */
  lemma HealthUnguarded(header: Option<string>, verify: string -> Option<Claims>)
    ensures Dispatch(Get, ["api", "health"], header, verify) == Handled(Health, None, [])
  {
    PlainPathMatchesItself(Routes[0].path, ["api", "health"]);
    LookupFindsFirst(Routes, Get, ["api", "health"], 0);
  }

  /** Before the per-student routes, no GET registration matches a path of five segments. */
  lemma EarlyRoutesMissFiveSegments(path: seq<string>)
    requires |path| == 5
    ensures forall j :: 0 <= j < 14 ==> Routes[j].verb != Get || !PathMatches(Routes[j].path, path)
  {
    assert forall j :: 0 <= j < 14 ==> Routes[j].verb != Get || |Routes[j].path| != 5;
    forall j | 0 <= j < 14 ensures Routes[j].verb != Get || !PathMatches(Routes[j].path, path) {
      PathMatchesEverywhere(Routes[j].path, path);
    }
  }

  /** The per-student registrations match any non-empty id, binding it as their one parameter. */
  lemma PerStudentPatterns(id: string)
    requires id != ""
    ensures PathMatches(StudentProgressPath, ["api", "therapist", "student", id, "progress"])
    ensures PathMatches(StudentReportPath, ["api", "therapist", "student", id, "report"])
    ensures !PathMatches(StudentProgressPath, ["api", "therapist", "student", id, "report"])
    ensures Params(StudentProgressPath, ["api", "therapist", "student", id, "progress"]) == [id]
    ensures Params(StudentReportPath, ["api", "therapist", "student", id, "report"]) == [id]
  {
    var progress := ["api", "therapist", "student", id, "progress"];
    var report := ["api", "therapist", "student", id, "report"];
    PathMatchesEverywhere(StudentProgressPath, progress);
    PathMatchesEverywhere(StudentReportPath, report);
    PathMatchesEverywhere(StudentProgressPath, report);
    assert !SegmentMatches(StudentProgressPath[4], report[4]);
    OneParamBound(StudentProgressPath, progress);
    OneParamBound(StudentReportPath, report);
  }

  /** A five-segment registration whose only parameter is the fourth segment binds the request's fourth segment. */
  lemma OneParamBound(pattern: seq<string>, path: seq<string>)
    requires |pattern| == 5 && |path| == 5 && PathMatches(pattern, path)
    requires !IsParam(pattern[0]) && !IsParam(pattern[1]) && !IsParam(pattern[2])
    requires IsParam(pattern[3]) && !IsParam(pattern[4])
    ensures Params(pattern, path) == [path[3]]
  {
    PathMatchesEverywhere(pattern, path);
    PathMatchesEverywhere(pattern[1..], path[1..]);
    PathMatchesEverywhere(pattern[2..], path[2..]);
    PathMatchesEverywhere(pattern[3..], path[3..]);
    PathMatchesEverywhere(pattern[4..], path[4..]);
    assert Params(pattern[4..], path[4..]) == [];
    assert Params(pattern[3..], path[3..]) == [path[3]];
    assert Params(pattern[2..], path[2..]) == Params(pattern[3..], path[3..]);
    assert Params(pattern[1..], path[1..]) == Params(pattern[2..], path[2..]);
  }

  /** A five-segment GET path is looked up among the per-student registrations alone. */
  lemma FiveSegmentLookup(path: seq<string>)
    requires |path| == 5
    ensures PathMatches(StudentProgressPath, path) ==> Lookup(Routes, Get, path) == Some(Routes[14])
    ensures !PathMatches(StudentProgressPath, path) && PathMatches(StudentReportPath, path) ==>
      Lookup(Routes, Get, path) == Some(Routes[15])
  {
    EarlyRoutesMissFiveSegments(path);
    if PathMatches(StudentProgressPath, path) {
      LookupFindsFirst(Routes, Get, path, 14);
    } else if PathMatches(StudentReportPath, path) {
      LookupFindsFirst(Routes, Get, path, 15);
    }
  }

  /** `GET /api/therapist/student/<id>/progress` and `.../report` reach their registrations, whatever the id. */
  lemma PerStudentRoutesMatch(id: string)
    requires id != ""
    ensures Lookup(Routes, Get, ["api", "therapist", "student", id, "progress"]) == Some(Routes[14])
    ensures Lookup(Routes, Get, ["api", "therapist", "student", id, "report"]) == Some(Routes[15])
  {
    PerStudentPatterns(id);
    FiveSegmentLookup(["api", "therapist", "student", id, "progress"]);
    FiveSegmentLookup(["api", "therapist", "student", id, "report"]);
  }

  /** A therapist's own token on a per-student route reaches the handler with the caller's claims and the id from the path. */
  lemma TherapistReachesStudentRoutes(ts: TokenService, therapist: Id, id: string)
    requires TokensSound(ts) && id != ""
    ensures var header := Some(AuthMiddleware.BearerPrefix + ts.sign(Claims(therapist, TherapistKind)));
      && Dispatch(Get, ["api", "therapist", "student", id, "progress"], header, ts.verify)
         == Handled(GetAssignedStudentProgress, Some(Claims(therapist, TherapistKind)), [id])
      && Dispatch(Get, ["api", "therapist", "student", id, "report"], header, ts.verify)
         == Handled(GenerateWeeklyReport, Some(Claims(therapist, TherapistKind)), [id])
  {
    PerStudentRoutesMatch(id);
    PerStudentPatterns(id);
    AuthMiddleware.IssuedTokenPasses(ts, Claims(therapist, TherapistKind), "Therapist access required");
  }

  /** A handler of a role's area runs only with claims of that role. */
  lemma HandlersSeeTheirRole(verb: Verb, path: seq<string>, header: Option<string>, verify: string -> Option<Claims>)
    requires Dispatch(verb, path, header, verify).Handled?
    ensures Area(Lookup(Routes, verb, path).value.path) == "student" ==>
      var user := Dispatch(verb, path, header, verify).user;
      user.Some? && user.value.kind == StudentKind
    ensures Area(Lookup(Routes, verb, path).value.path) == "therapist" ==>
      var user := Dispatch(verb, path, header, verify).user;
      user.Some? && user.value.kind == TherapistKind
  {
    var route := Lookup(Routes, verb, path).value;
    var user := Dispatch(verb, path, header, verify).user;
    EveryRouteFitsArea();
    assert GuardFitsArea(route);
    if Area(route.path) == "student" {
      assert Gate(route.guard, header, verify) == Some(AuthMiddleware.StudentGate(header, verify));
    } else if Area(route.path) == "therapist" {
      assert Gate(route.guard, header, verify) == Some(AuthMiddleware.TherapistGate(header, verify));
    }
  }

  /** A student's valid token on any therapist route is refused with 403, and the reverse. */
  lemma RoleIsolationOnRoutes(ts: TokenService, id: Id, verb: Verb, path: seq<string>)
    requires TokensSound(ts)
    requires Lookup(Routes, verb, path).Some?
    ensures Lookup(Routes, verb, path).value.guard == TherapistAuth ==>
      Dispatch(verb, path, Some(AuthMiddleware.BearerPrefix + ts.sign(Claims(id, StudentKind))), ts.verify)
        == Refused(403, "Therapist access required")
    ensures Lookup(Routes, verb, path).value.guard == StudentAuth ==>
      Dispatch(verb, path, Some(AuthMiddleware.BearerPrefix + ts.sign(Claims(id, TherapistKind))), ts.verify)
        == Refused(403, "Student access required")
  {
    var asStudent := Some(AuthMiddleware.BearerPrefix + ts.sign(Claims(id, StudentKind)));
    var asTherapist := Some(AuthMiddleware.BearerPrefix + ts.sign(Claims(id, TherapistKind)));
    AuthMiddleware.RoleIsolation(ts, id);
    assert Gate(TherapistAuth, asStudent, ts.verify) == Some(AuthMiddleware.Deny(403, "Therapist access required"));
    assert Gate(StudentAuth, asTherapist, ts.verify) == Some(AuthMiddleware.Deny(403, "Student access required"));
  }

  /** On a guarded route, a token that does not verify is refused with 401 and never reaches the handler. */
  lemma BadTokenRefused(verb: Verb, path: seq<string>, header: Option<string>, verify: string -> Option<Claims>)
    requires Lookup(Routes, verb, path).Some? && Lookup(Routes, verb, path).value.guard != Unguarded
    requires !AuthMiddleware.HasToken(header) || verify(AuthMiddleware.ExtractToken(header).value).None?
    ensures Dispatch(verb, path, header, verify).Refused?
    ensures Dispatch(verb, path, header, verify).status == 401
  {
  }
}
