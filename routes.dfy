/**
 * The route configuration helpers of config.py: the route table, lookup by
 * path, the enabled routes in table order, their grouping by type, and the
 * startup URLs built from the server's host and port.
 */
module Routes {
  import opened Optional

  /** One value of `ROUTES_CONFIG`; the optional keys are Options. `kind` is the 'type' key. */
  datatype RouteConfig = RouteConfig(
    name: string,
    kind: string,
    template: Option<string>,
    description: Option<string>,
    methods: Option<seq<string>>)

  /** A Python dict with string keys, as its (path, value) pairs in insertion order. */
  type RouteTable = seq<(string, RouteConfig)>

  /** One element of `get_enabled_routes()`. */
  datatype RouteEntry = RouteEntry(path: string, name: string, kind: string)

  /** `ROUTES_CONFIG`. */
  const RoutesConfig: RouteTable := [
    ("/", RouteConfig("Home - Real-time Wait Estimation", "frontend", Some("index.html"), None, None)),
    ("/history", RouteConfig("Historical Data", "frontend", Some("history.html"), None, None)),
    ("/api/realtime", RouteConfig("Real-time Data API", "api", None, Some("Get real-time statistics"), None)),
    ("/api/history", RouteConfig("Historical Data API", "api", None, Some("Get historical statistics"), None)),
    ("/api/stats", RouteConfig("Detailed Statistics API", "api", None, Some("Get detailed detection statistics"), None)),
    ("/video_feed", RouteConfig("Real-time Video Stream", "stream", None, Some("Live camera video stream"), None)),
    ("/upload", RouteConfig("Image Upload", "api", None, None, Some(["POST"])))
  ]

  /** `FLASK_CONFIG['HOST']` and `FLASK_CONFIG['PORT']`. */
  const Host: string := "0.0.0.0"
  const Port: nat := 5000

  const Disabled: string := "disabled"

  /** Dict keys are distinct. */
  predicate DistinctPaths(t: RouteTable) {
    forall i, j :: 0 <= i < j < |t| ==> t[i].0 != t[j].0
  }

  // ---------------------------------------------------------------------------
  // Lookup
  // ---------------------------------------------------------------------------

  /** `t.get(path, None)`. */
  function Lookup(t: RouteTable, path: string): (r: Option<RouteConfig>)
    ensures r.None? <==> forall i :: 0 <= i < |t| ==> t[i].0 != path
    ensures r.Some? ==> exists i :: 0 <= i < |t| && t[i] == (path, r.value)
  {
    if t == [] then None
    else if t[0].0 == path then Some(t[0].1)
    else
      var r := Lookup(t[1..], path);
      assert r.Some? ==> exists i :: 0 <= i < |t| - 1 && t[1..][i] == (path, r.value);
      r
  }

  /** In a table with distinct keys, a key finds exactly its own entry. */
  lemma {:induction false} LookupFindsEntry(t: RouteTable, i: nat)
    requires DistinctPaths(t) && i < |t|
    ensures Lookup(t, t[i].0) == Some(t[i].1)
    decreases |t|
  {
    if i > 0 {
      assert t[0].0 != t[i].0;
      assert t[1..][i - 1] == t[i];
      LookupFindsEntry(t[1..], i - 1);
    }
  }

  /** With distinct keys, every key finds its own entry. */
  lemma LookupFindsEveryEntry(t: RouteTable)
    requires DistinctPaths(t)
    ensures forall i :: 0 <= i < |t| ==> Lookup(t, t[i].0) == Some(t[i].1)
  {
    forall i | 0 <= i < |t|
      ensures Lookup(t, t[i].0) == Some(t[i].1)
    {
      LookupFindsEntry(t, i);
    }
  }

  /** `get_route_info(path)`: a configured path gives its configuration, an unknown path gives None. */
  function GetRouteInfo(path: string): (r: Option<RouteConfig>)
    ensures r.None? <==> forall i :: 0 <= i < |RoutesConfig| ==> RoutesConfig[i].0 != path
    ensures forall i :: 0 <= i < |RoutesConfig| && RoutesConfig[i].0 == path ==> r == Some(RoutesConfig[i].1)
  {
    ShippedPathsDistinct();
    LookupFindsEveryEntry(RoutesConfig);
    Lookup(RoutesConfig, path)
  }

  // ---------------------------------------------------------------------------
  // Enabled routes
  // ---------------------------------------------------------------------------

  /** The entry `get_enabled_routes` builds from one configured route. */
  function EntryOf(p: (string, RouteConfig)): RouteEntry {
    RouteEntry(p.0, p.1.name, p.1.kind)
  }

  /** The specification of `get_enabled_routes`: the table's non-disabled routes, in table order. */
  function Enabled(t: RouteTable): (r: seq<RouteEntry>)
    ensures |r| <= |t|
    decreases |t|
  {
    if t == [] then []
    else
      var last := t[|t| - 1];
      Enabled(t[..|t| - 1]) + if last.1.kind != Disabled then [EntryOf(last)] else []
  }

  /** `get_enabled_routes`, over the table it is given (ROUTES_CONFIG in the source). */
  method GetEnabledRoutes(t: RouteTable) returns (routes: seq<RouteEntry>)
    ensures routes == Enabled(t)
  {
    routes := [];
    for i := 0 to |t|
      invariant routes == Enabled(t[..i])
    {
      assert t[..i + 1][..i] == t[..i];
      var (path, config) := t[i];
      if config.kind != Disabled {
        routes := routes + [RouteEntry(path, config.name, config.kind)];
      }
    }
    assert t[..|t|] == t;
  }

  /**
   * An entry is returned iff it is built from a configured route that is not
   * disabled: its path, name and type are those of that route.
   */
  lemma {:induction false} EnabledMembership(t: RouteTable, e: RouteEntry)
    ensures e in Enabled(t) <==> exists i :: 0 <= i < |t| && t[i].1.kind != Disabled && e == EntryOf(t[i])
    decreases |t|
  {
    if t != [] {
      var init := t[..|t| - 1];
      EnabledMembership(init, e);
      assert forall i :: 0 <= i < |init| ==> init[i] == t[i];
      if e in Enabled(init) {
        var i :| 0 <= i < |init| && init[i].1.kind != Disabled && e == EntryOf(init[i]);
        assert t[i] == init[i];
      }
    }
  }

  /** The filter preserves order: splitting the table splits the result the same way. */
  lemma {:induction false} EnabledAppend(t1: RouteTable, t2: RouteTable)
    ensures Enabled(t1 + t2) == Enabled(t1) + Enabled(t2)
    decreases |t2|
  {
    if t2 == [] {
      assert t1 + t2 == t1;
    } else {
      var init, last := t2[..|t2| - 1], t2[|t2| - 1];
      var tail := if last.1.kind != Disabled then [EntryOf(last)] else [];
      assert (t1 + t2)[..|t1 + t2| - 1] == t1 + init;
      assert (t1 + t2)[|t1 + t2| - 1] == last;
      assert Enabled(t1 + t2) == Enabled(t1 + init) + tail;
      EnabledAppend(t1, init);
    }
  }

  /** With no disabled route, every route is returned, in table order. */
  lemma {:induction false} EnabledKeepsAll(t: RouteTable)
    requires forall i :: 0 <= i < |t| ==> t[i].1.kind != Disabled
    ensures |Enabled(t)| == |t|
    ensures forall i :: 0 <= i < |t| ==> Enabled(t)[i] == EntryOf(t[i])
    decreases |t|
  {
    if t != [] {
      var init := t[..|t| - 1];
      EnabledKeepsAll(init);
    }
  }

  /** The shipped table's paths are distinct, as dict keys are. */
  lemma ShippedPathsDistinct()
    ensures DistinctPaths(RoutesConfig)
  {
    forall i, j | 0 <= i < j < |RoutesConfig|
      ensures RoutesConfig[i].0 != RoutesConfig[j].0
    {
      assert |RoutesConfig[i].0| != |RoutesConfig[j].0|;
    }
  }

  /** The shipped table has no disabled route, so all 7 routes are enabled. */
  lemma ShippedRoutesAllEnabled()
    ensures |Enabled(RoutesConfig)| == 7
    ensures forall i :: 0 <= i < 7 ==> Enabled(RoutesConfig)[i] == EntryOf(RoutesConfig[i])
  {
    forall i | 0 <= i < |RoutesConfig|
      ensures RoutesConfig[i].1.kind != Disabled
    {
      assert RoutesConfig[i].1.kind[0] != 'd';
    }
    EnabledKeepsAll(RoutesConfig);
  }

  // ---------------------------------------------------------------------------
  // Grouping by type (print_routes_info)
  // ---------------------------------------------------------------------------

  /** `a` is `b` with some elements left out, the rest in order. */
  predicate IsSubsequence<T(==)>(a: seq<T>, b: seq<T>)
    decreases |b|
  {
    a == [] || (b != [] && ((a[0] == b[0] && IsSubsequence(a[1..], b[1..])) || IsSubsequence(a, b[1..])))
  }

  /** `[r for r in routes if r['type'] == kind]`: never longer than `routes`, and only routes of type `kind`. */
  function OfKind(routes: seq<RouteEntry>, kind: string): (r: seq<RouteEntry>)
    ensures |r| <= |routes|
    ensures forall i :: 0 <= i < |r| ==> r[i].kind == kind
    decreases |routes|
  {
    if routes == [] then []
    else (if routes[0].kind == kind then [routes[0]] else []) + OfKind(routes[1..], kind)
  }

  /** The group of a type holds exactly the routes of that type, in their order. */
  lemma {:induction false} OfKindFilters(routes: seq<RouteEntry>, kind: string)
    ensures forall e :: e in OfKind(routes, kind) <==> e in routes && e.kind == kind
    ensures IsSubsequence(OfKind(routes, kind), routes)
    decreases |routes|
  {
    if routes != [] {
      OfKindFilters(routes[1..], kind);
      var rest := OfKind(routes[1..], kind);
      assert forall e :: e in routes <==> e == routes[0] || e in routes[1..];
      if routes[0].kind == kind {
        assert ([routes[0]] + rest)[1..] == rest;
      } else {
        assert [] + rest == rest;
      }
    }
  }

  /** The three groups `print_routes_info` prints. */
  datatype RouteGroups = RouteGroups(frontend: seq<RouteEntry>, api: seq<RouteEntry>, stream: seq<RouteEntry>)

  /** The grouping of `print_routes_info`: each group holds exactly the routes of its type. */
  function GroupRoutes(routes: seq<RouteEntry>): (g: RouteGroups)
    ensures forall e :: e in g.frontend <==> e in routes && e.kind == "frontend"
    ensures forall e :: e in g.api <==> e in routes && e.kind == "api"
    ensures forall e :: e in g.stream <==> e in routes && e.kind == "stream"
  {
    OfKindFilters(routes, "frontend");
    OfKindFilters(routes, "api");
    OfKindFilters(routes, "stream");
    RouteGroups(OfKind(routes, "frontend"), OfKind(routes, "api"), OfKind(routes, "stream"))
  }

  /** The groups are order-preserving filters of the routes and no route is in two of them. */
  lemma GroupsDisjointSubsequences(routes: seq<RouteEntry>)
    ensures var g := GroupRoutes(routes);
      && IsSubsequence(g.frontend, routes) && IsSubsequence(g.api, routes) && IsSubsequence(g.stream, routes)
      && (forall e :: e in g.frontend ==> e !in g.api && e !in g.stream)
      && (forall e :: e in g.api ==> e !in g.stream)
  {
    OfKindFilters(routes, "frontend");
    OfKindFilters(routes, "api");
    OfKindFilters(routes, "stream");
  }

  /** The enabled routes of the shipped table, written out. */
  lemma ShippedEnabledRoutes()
    ensures Enabled(RoutesConfig) == [
      RouteEntry("/", "Home - Real-time Wait Estimation", "frontend"),
      RouteEntry("/history", "Historical Data", "frontend"),
      RouteEntry("/api/realtime", "Real-time Data API", "api"),
      RouteEntry("/api/history", "Historical Data API", "api"),
      RouteEntry("/api/stats", "Detailed Statistics API", "api"),
      RouteEntry("/video_feed", "Real-time Video Stream", "stream"),
      RouteEntry("/upload", "Image Upload", "api")]
  {
    ShippedRoutesAllEnabled();
  }

  /** The filter on a non-empty sequence, one step. */
  lemma OfKindCons(routes: seq<RouteEntry>, kind: string)
    requires routes != []
    ensures OfKind(routes, kind) == (if routes[0].kind == kind then [routes[0]] else []) + OfKind(routes[1..], kind)
  {
  }

  /** When every route has one of the three printed types, each route is printed exactly once. */
  lemma {:induction false} GroupsCover(routes: seq<RouteEntry>)
    requires forall i :: 0 <= i < |routes| ==> routes[i].kind == "frontend" || routes[i].kind == "api" || routes[i].kind == "stream"
    ensures var g := GroupRoutes(routes); |g.frontend| + |g.api| + |g.stream| == |routes|
    decreases |routes|
  {
    if routes != [] {
      OfKindCons(routes, "frontend");
      OfKindCons(routes, "api");
      OfKindCons(routes, "stream");
      GroupsCover(routes[1..]);
    }
  }

  /** For the shipped table: two frontend routes, four API routes, one stream, seven in all. */
  lemma ShippedGroups()
    ensures var g := GroupRoutes(Enabled(RoutesConfig));
      && |g.frontend| == 2 && |g.api| == 4 && |g.stream| == 1
      && |g.frontend| + |g.api| + |g.stream| == |Enabled(RoutesConfig)|
  {
    ShippedEnabledRoutes();
    ShippedGroupSizes(Enabled(RoutesConfig));
  }

  /** Seven routes typed frontend, frontend, api, api, api, stream, api fall into groups of 2, 4 and 1. */
  lemma ShippedGroupSizes(e: seq<RouteEntry>)
    requires |e| == 7 && e[0].kind == e[1].kind == "frontend"
    requires e[2].kind == e[3].kind == e[4].kind == e[6].kind == "api" && e[5].kind == "stream"
    ensures |OfKind(e, "frontend")| == 2 && |OfKind(e, "api")| == 4 && |OfKind(e, "stream")| == 1
  {
    assert forall i :: 0 <= i < |e| ==> e[i].kind == "frontend" || e[i].kind == "api" || e[i].kind == "stream";
    GroupsCover(e);
    ShippedFrontend(e);
    ShippedStream(e);
  }

  lemma ShippedFrontend(e: seq<RouteEntry>)
    requires |e| == 7 && e[0].kind == e[1].kind == "frontend"
    requires e[2].kind == e[3].kind == e[4].kind == e[6].kind == "api" && e[5].kind == "stream"
    ensures |OfKind(e, "frontend")| == 2
  {
    OfKindCons(e, "frontend");
    assert e[1..][1..] == e[2..];
    OfKindCons(e[1..], "frontend");
    var rest := e[2..];
    forall i | 0 <= i < |rest|
      ensures rest[i].kind != "frontend"
    {
      assert rest[i] == e[i + 2];
      assert rest[i].kind == "api" || rest[i].kind == "stream";
    }
    OfKindNone(rest, "frontend");
  }

  lemma ShippedStream(e: seq<RouteEntry>)
    requires |e| == 7 && e[5].kind == "stream"
    requires e[0].kind == e[1].kind == "frontend" && e[2].kind == e[3].kind == e[4].kind == e[6].kind == "api"
    ensures |OfKind(e, "stream")| == 1
  {
    var front, back := e[..5], e[5..];
    assert front + back == e;
    OfKindAppend(front, back, "stream");
    forall i | 0 <= i < |front|
      ensures front[i].kind != "stream"
    {
      assert front[i] == e[i];
      assert front[i].kind == "api" || front[i].kind == "frontend";
    }
    OfKindNone(front, "stream");
    OfKindCons(back, "stream");
    var last := back[1..];
    assert |last| == 1 && last[0] == e[6];
    OfKindNone(last, "stream");
  }

  /** No route of the type: empty group. */
  lemma {:induction false} OfKindNone(routes: seq<RouteEntry>, kind: string)
    requires forall i :: 0 <= i < |routes| ==> routes[i].kind != kind
    ensures OfKind(routes, kind) == []
    decreases |routes|
  {
    if routes != [] {
      OfKindNone(routes[1..], kind);
    }
  }

  /** Grouping a concatenation groups each part. */
  lemma {:induction false} OfKindAppend(a: seq<RouteEntry>, b: seq<RouteEntry>, kind: string)
    ensures OfKind(a + b, kind) == OfKind(a, kind) + OfKind(b, kind)
    decreases |a|
  {
    if a != [] {
      assert (a + b)[1..] == a[1..] + b;
      OfKindAppend(a[1..], b, kind);
    } else {
      assert a + b == b;
    }
  }

  // ---------------------------------------------------------------------------
  // Startup URLs
  // ---------------------------------------------------------------------------

  function DigitChar(d: nat): char
    requires d < 10
  {
    "0123456789"[d]
  }

  predicate IsDigitChar(c: char) {
    '0' <= c <= '9'
  }

  function DigitValue(c: char): nat
    requires IsDigitChar(c)
  {
    c as int - '0' as int
  }

  /** `str(n)` for a non-negative integer: decimal digits without leading zeros. */
  function Decimal(n: nat): (s: string)
    ensures |s| >= 1 && forall i :: 0 <= i < |s| ==> IsDigitChar(s[i])
    ensures |s| > 1 ==> s[0] != '0'
  {
    if n < 10 then [DigitChar(n)] else Decimal(n / 10) + [DigitChar(n % 10)]
  }

  /** Reading decimal digits back as a number. */
  function ParseDecimal(s: string): nat
    requires forall i :: 0 <= i < |s| ==> IsDigitChar(s[i])
    decreases |s|
  {
    if s == [] then 0 else ParseDecimal(s[..|s| - 1]) * 10 + DigitValue(s[|s| - 1])
  }

  /** The port number is written so that it reads back as itself. */
  lemma {:induction false} DecimalRoundTrip(n: nat)
    ensures ParseDecimal(Decimal(n)) == n
  {
    if n >= 10 {
      var s := Decimal(n);
      assert s[..|s| - 1] == Decimal(n / 10);
      DecimalRoundTrip(n / 10);
    }
  }

  /** The host shown to users: 'localhost' for the wildcard address, the host itself otherwise. */
  function DisplayHost(host: string): (h: string)
    ensures h != "0.0.0.0"
    ensures host == "0.0.0.0" ==> h == "localhost"
    ensures host != "0.0.0.0" ==> h == host
  {
    if host != "0.0.0.0" then host else "localhost"
  }

  /** `f'http://{host}:{port}{path}'`. */
  function Url(host: string, port: nat, path: string): string {
    "http://" + host + ":" + Decimal(port) + path
  }

  /** The result of `get_startup_info`. */
  datatype StartupInfo = StartupInfo(home: string, history: string, apiRealtime: string, apiHistory: string, videoStream: string)

  /** The five paths `get_startup_info` links, in its order. */
  const StartupPaths: seq<string> := ["/", "/history", "/api/realtime", "/api/history", "/video_feed"]

  /**
   * `get_startup_info()` for a server bound to `host` and `port`: the five URLs
   * are `http://<display host>:<port>` followed by each fixed path, in order.
   */
  function StartupUrls(host: string, port: nat): (u: StartupInfo)
    ensures [u.home, u.history, u.apiRealtime, u.apiHistory, u.videoStream]
      == seq(5, k requires 0 <= k < 5 => Url(DisplayHost(host), port, StartupPaths[k]))
  {
    var h := DisplayHost(host);
    StartupInfo(Url(h, port, "/"), Url(h, port, "/history"), Url(h, port, "/api/realtime"),
                Url(h, port, "/api/history"), Url(h, port, "/video_feed"))
  }

  /**
   * `get_startup_info()` with the shipped host and port: the server binds
   * 0.0.0.0, so users are shown localhost on port 5000.
   */
  function GetStartupInfo(): (u: StartupInfo)
    ensures u.home == "http://localhost:5000/"
    ensures u.history == "http://localhost:5000/history"
    ensures u.apiRealtime == "http://localhost:5000/api/realtime"
    ensures u.apiHistory == "http://localhost:5000/api/history"
    ensures u.videoStream == "http://localhost:5000/video_feed"
  {
    var u := StartupUrls(Host, Port);
    ShippedUrl(u.home, "/");
    ShippedUrl(u.history, "/history");
    ShippedUrl(u.apiRealtime, "/api/realtime");
    ShippedUrl(u.apiHistory, "/api/history");
    ShippedUrl(u.videoStream, "/video_feed");
    u
  }

  /** A URL of the shipped server. */
  lemma ShippedUrl(url: string, path: string)
    requires url == Url(DisplayHost(Host), Port, path)
    ensures url == "http://localhost:5000" + path
  {
    assert Decimal(5000) == "5000" by {
      assert Decimal(5) == "5" && Decimal(50) == "50" && Decimal(500) == "500";
    }
  }

  /** Every linked path is a configured, enabled route. */
  lemma StartupPathsAreEnabledRoutes(k: nat)
    requires k < |StartupPaths|
    ensures GetRouteInfo(StartupPaths[k]).Some?
    ensures exists e :: e in Enabled(RoutesConfig) && e.path == StartupPaths[k]
  {
    ShippedRoutesAllEnabled();
    var i := [0, 1, 2, 3, 5][k];
    assert RoutesConfig[i].0 == StartupPaths[k];
    assert Enabled(RoutesConfig)[i] in Enabled(RoutesConfig);
  }
}
