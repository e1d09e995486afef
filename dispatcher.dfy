/** Dispatch: the route a request reaches, the path attributes its
    placeholders bind, and the response its middleware and handler give.
    Paths are compared segment by segment, empty segments ignored. */
module Dispatcher {
  import opened Wrappers
  import opened Php
  import opened Router

  datatype Config = Config(virtualMethodEnabled: bool)

  /** A request: its method and path, the `_method` field of its parsed
      body and its `X-Http-Method-Override` header, when present. */
  datatype Request = Request(verb: string, path: string, methodField: Option<string>, overrideHeader: Option<string>)

  /** `withRoutes` returns a dispatcher holding the routes of a callback. */
  datatype Dispatcher = Dispatcher(config: Config, routes: seq<Route>)

  datatype DispatchError = MethodNotAllowed | RouteNotFound

  /** The route reached, the method it was reached by and the attributes
      bound by its placeholders. */
  datatype Dispatched = Dispatched(route: Route, verb: string, attributes: seq<(string, string)>)

  /** The handlers and middleware, which this model does not run. */
  datatype Runtime = Runtime(
    handle: (string, string, string, seq<(string, string)>) -> string,  // controller, action, verb, attributes
    wrap: (string, string, string) -> string)                           // middleware, verb, inner body

  // ---------------------------------------------------------------------
  // Paths

  function NonEmpty(parts: seq<string>): (r: seq<string>)
    ensures forall i :: 0 <= i < |r| ==> r[i] != ""
  {
    if |parts| == 0 then []
    else (if parts[0] == "" then [] else [parts[0]]) + NonEmpty(parts[1..])
  }

  lemma {:induction false} NonEmptyAppend(a: seq<string>, b: seq<string>)
    ensures NonEmpty(a + b) == NonEmpty(a) + NonEmpty(b)
    decreases |a|
  {
    if |a| > 0 {
      assert (a + b)[0] == a[0] && (a + b)[1..] == a[1..] + b;
      NonEmptyAppend(a[1..], b);
    } else {
      assert a + b == b;
    }
  }

  /** The segments of a path: its pieces between slashes, the empty ones
      dropped. */
  function Segments(path: string): seq<string> {
    NonEmpty(Split(path, '/'))
  }

  /** A prefix joined to a path that starts with a slash has the prefix's
      segments followed by the path's. */
  lemma SegmentsJoin(p: string, q: string)
    requires |q| > 0 && q[0] == '/'
    ensures Segments(p + q) == Segments(p) + Segments(q)
  {
    var rest := q[1..];
    assert p + q == p + ['/'] + rest;
    SplitConcat(p, '/', rest);
    NonEmptyAppend(Split(p, '/'), Split(rest, '/'));
    LeadingSlash(q);
  }

  /** A leading slash adds no segment. */
  lemma LeadingSlash(q: string)
    requires |q| > 0 && q[0] == '/'
    ensures Segments(q) == Segments(q[1..])
  {
    var rest := q[1..];
    assert q == "" + ['/'] + rest;
    SplitConcat("", '/', rest);
    assert Split("", '/') == [""];
    NonEmptyAppend([""], Split(rest, '/'));
    assert NonEmpty([""]) == [];
  }

  /** `/` has no segments, so a group prefix followed by `/` reaches the
      prefix itself: `/admin` + `/` matches `/admin`. */
  lemma SegmentsTrailingSlash(p: string)
    ensures Segments("/") == []
    ensures Segments(p + "/") == Segments(p)
  {
    SegmentsJoin("", "/");
    assert "" + "/" == "/";
    assert Segments("") == [] by {
      assert Split("", '/') == [""];
    }
    SegmentsJoin(p, "/");
  }

  // ---------------------------------------------------------------------
  // Matching

  /** A template segment `{name}`. */
  predicate IsPlaceholder(seg: string) {
    |seg| >= 2 && seg[0] == '{' && seg[|seg| - 1] == '}'
  }

  function PlaceholderName(seg: string): string
    requires IsPlaceholder(seg)
  {
    seg[1..|seg| - 1]
  }

  /** A template matches when it has as many segments as the path and each
      static segment is equal; placeholders bind, in order. */
  function Match(template: seq<string>, segs: seq<string>): Option<seq<(string, string)>>
    decreases |template|
  {
    if |template| == 0 then (if |segs| == 0 then Some([]) else None)
    else if |segs| == 0 then None
    else
      match Match(template[1..], segs[1..])
      case None => None
      case Some(rest) =>
        if IsPlaceholder(template[0]) then Some([(PlaceholderName(template[0]), segs[0])] + rest)
        else if template[0] == segs[0] then Some(rest)
        else None
  }

  /** Both directions: a template matches exactly the paths of its length
      that agree with it on every static segment. */
  lemma {:induction false} MatchIff(template: seq<string>, segs: seq<string>)
    ensures Match(template, segs).Some? <==>
      |template| == |segs| && forall i :: 0 <= i < |template| ==> IsPlaceholder(template[i]) || template[i] == segs[i]
    decreases |template|
  {
    if |template| > 0 && |segs| > 0 {
      MatchIff(template[1..], segs[1..]);
      if |template| == |segs| {
        forall i | 1 <= i < |template|
          ensures (IsPlaceholder(template[i]) || template[i] == segs[i])
            == (IsPlaceholder(template[1..][i - 1]) || template[1..][i - 1] == segs[1..][i - 1])
        {
        }
      }
    }
  }

  /** Every placeholder binds its own segment, and every binding comes from
      a placeholder. */
  lemma {:induction false} MatchBinds(template: seq<string>, segs: seq<string>)
    requires Match(template, segs).Some?
    ensures forall i :: 0 <= i < |template| && IsPlaceholder(template[i]) ==>
      i < |segs| && (PlaceholderName(template[i]), segs[i]) in Match(template, segs).value
    ensures forall b :: b in Match(template, segs).value ==>
      exists i :: 0 <= i < |template| && i < |segs| && IsPlaceholder(template[i]) && b == (PlaceholderName(template[i]), segs[i])
    decreases |template|
  {
    MatchIff(template, segs);
    if |template| > 0 {
      var t, s := template[1..], segs[1..];
      MatchBinds(t, s);
      var bs := Match(template, segs).value;
      forall i | 0 <= i < |template| && IsPlaceholder(template[i])
        ensures (PlaceholderName(template[i]), segs[i]) in bs
      {
        if i > 0 {
          assert template[i] == t[i - 1] && segs[i] == s[i - 1];
        }
      }
      forall b | b in bs
        ensures exists i :: 0 <= i < |template| && i < |segs| && IsPlaceholder(template[i]) && b == (PlaceholderName(template[i]), segs[i])
      {
        if b !in Match(t, s).value {
          assert IsPlaceholder(template[0]) && b == (PlaceholderName(template[0]), segs[0]);
        } else {
          var j :| 0 <= j < |t| && j < |s| && IsPlaceholder(t[j]) && b == (PlaceholderName(t[j]), s[j]);
          assert template[j + 1] == t[j] && segs[j + 1] == s[j];
        }
      }
    }
  }

  /** `testDispatchMatchingRegExpUri`: the template `/admin/users/{user}`
      matches `/admin/users/37` and binds `user` to `37`; a path one segment
      shorter or longer does not match. */
  lemma MatchUser(extra: string)
    ensures Match(["admin", "users", "{user}"], ["admin", "users", "37"]) == Some([("user", "37")])
    ensures Match(["admin", "users", "{user}"], ["admin", "users"]).None?
    ensures Match(["admin", "users", "{user}"], ["admin", "users", "37", extra]).None?
  {
    assert IsPlaceholder("{user}") && PlaceholderName("{user}") == "user";
    assert !IsPlaceholder("admin") && !IsPlaceholder("users");
    var t, u := ["admin", "users", "{user}"], ["admin", "users", "37"];
    assert t[1..] == ["users", "{user}"] && u[1..] == ["users", "37"];
    assert t[1..][1..] == ["{user}"] && u[1..][1..] == ["37"];
    assert ["{user}"][1..] == [] && ["37"][1..] == [];
    assert Match(["{user}"][1..], ["37"][1..]) == Some([]);
    assert [("user", "37")] + [] == [("user", "37")];
    assert Match(["{user}"], ["37"]) == Some([("user", "37")]);
    assert Match(t[1..], u[1..]) == Some([("user", "37")]);
    MatchIff(["admin", "users", "{user}"], ["admin", "users"]);
    MatchIff(["admin", "users", "{user}"], ["admin", "users", "37", extra]);
  }

  // ---------------------------------------------------------------------
  // dispatch

  /** The method the request is routed by: with virtual methods enabled, an
      uppercased `_method` field, else the override header, else its own. */
  function EffectiveMethod(config: Config, req: Request): string {
    if !config.virtualMethodEnabled then req.verb
    else match req.methodField
      case Some(m) => ToUpper(m)
      case None =>
        match req.overrideHeader
        case Some(h) => h
        case None => req.verb
  }

  predicate Answers(r: Route, verb: string, segs: seq<string>) {
    verb in r.methods && Match(Segments(r.path), segs).Some?
  }

  /** The first route, in registration order, that answers. */
  function FirstAnswer(routes: seq<Route>, verb: string, segs: seq<string>): (r: Option<nat>)
    ensures r.Some? ==> r.value < |routes| && Answers(routes[r.value], verb, segs)
                        && forall j :: 0 <= j < r.value ==> !Answers(routes[j], verb, segs)
    ensures r.None? ==> forall j :: 0 <= j < |routes| ==> !Answers(routes[j], verb, segs)
  {
    if |routes| == 0 then None
    else if Answers(routes[0], verb, segs) then Some(0)
    else
      var r := FirstAnswer(routes[1..], verb, segs);
      assert forall j :: 1 <= j < |routes| ==> routes[j] == routes[1..][j - 1];
      if r.Some? then Some(r.value + 1) else None
  }

  /** Some route's path matches, whatever its methods. */
  predicate PathKnown(routes: seq<Route>, segs: seq<string>) {
    exists i :: 0 <= i < |routes| && Match(Segments(routes[i].path), segs).Some?
  }

  /** `dispatch($request)` up to running the handler. */
  function Dispatch(d: Dispatcher, req: Request): Result<Dispatched, DispatchError> {
    var verb := EffectiveMethod(d.config, req);
    var segs := Segments(req.path);
    match FirstAnswer(d.routes, verb, segs)
    case Some(i) => Ok(Dispatched(d.routes[i], verb, Match(Segments(d.routes[i].path), segs).value))
    case None => if PathKnown(d.routes, segs) then Err(MethodNotAllowed) else Err(RouteNotFound)
  }

  /** A request reaches the first route whose methods include its method
      and whose template matches its path, with that template's bindings. */
  lemma DispatchFound(d: Dispatcher, req: Request)
    requires Dispatch(d, req).Ok?
    ensures var r := Dispatch(d, req).value;
      && r.verb == EffectiveMethod(d.config, req)
      && exists i :: 0 <= i < |d.routes| && d.routes[i] == r.route
           && Answers(d.routes[i], r.verb, Segments(req.path))
           && Match(Segments(r.route.path), Segments(req.path)) == Some(r.attributes)
           && forall j :: 0 <= j < i ==> !Answers(d.routes[j], r.verb, Segments(req.path))
  {
  }

  /** A path some route matches, but by no route for the method, is
      `MethodNotAllowed`; a path no route matches is not found. */
  lemma DispatchErrors(d: Dispatcher, req: Request)
    ensures Dispatch(d, req) == Err(MethodNotAllowed) <==>
      PathKnown(d.routes, Segments(req.path))
      && forall j :: 0 <= j < |d.routes| ==> !Answers(d.routes[j], EffectiveMethod(d.config, req), Segments(req.path))
    ensures Dispatch(d, req) == Err(RouteNotFound) <==> !PathKnown(d.routes, Segments(req.path))
  {
    var verb, segs := EffectiveMethod(d.config, req), Segments(req.path);
    if !PathKnown(d.routes, segs) {
      assert forall j :: 0 <= j < |d.routes| ==> !Answers(d.routes[j], verb, segs);
    }
  }

  /** With virtual methods disabled the request's own method is used, so
      neither the `_method` field nor the header changes the outcome. */
  lemma OverrideDisabled(d: Dispatcher, req: Request, field: Option<string>, header: Option<string>)
    requires !d.config.virtualMethodEnabled
    ensures Dispatch(d, req) == Dispatch(d, req.(methodField := field, overrideHeader := header))
    ensures EffectiveMethod(d.config, req) == req.verb
  {
  }

  /** With virtual methods enabled the uppercased `_method` field decides;
      without it, the header does. */
  lemma OverrideEnabled(d: Dispatcher, req: Request)
    requires d.config.virtualMethodEnabled
    ensures req.methodField.Some? ==>
      Dispatch(d, req) == Dispatch(d, Request(ToUpper(req.methodField.value), req.path, None, None))
    ensures req.methodField.None? && req.overrideHeader.Some? ==>
      Dispatch(d, req) == Dispatch(d, Request(req.overrideHeader.value, req.path, None, None))
  {
  }

  lemma ToUpperPut()
    ensures ToUpper("put") == "PUT"
  {
    assert UpperChar('p') == 'P' && UpperChar('u') == 'U' && UpperChar('t') == 'T';
  }

  /** `testDispatchMethod`: two routes for the same path, say `GET` and
      `POST` routes for `/admin`; a request for that path reaches the first
      whose methods include its method, and any other method is not
      allowed. */
  lemma DispatchByMethod(d: Dispatcher, req: Request)
    requires |d.routes| == 2
    requires Segments(d.routes[0].path) == Segments(d.routes[1].path) == Segments(req.path)
    ensures var verb := EffectiveMethod(d.config, req);
      && (verb in d.routes[0].methods ==> Dispatch(d, req).Ok? && Dispatch(d, req).value.route == d.routes[0])
      && (verb !in d.routes[0].methods && verb in d.routes[1].methods ==>
            Dispatch(d, req).Ok? && Dispatch(d, req).value.route == d.routes[1])
      && (verb !in d.routes[0].methods && verb !in d.routes[1].methods ==> Dispatch(d, req) == Err(MethodNotAllowed))
  {
    var segs := Segments(req.path);
    MatchIff(segs, segs);
    assert Match(Segments(d.routes[0].path), segs).Some?;
  }

  /** `testVirtualMethod*`: a `POST` to `/` carrying `_method=put`, or the
      header `PUT`, reaches a `PUT` route only when virtual methods are
      enabled, and the handler sees the method `PUT`. */
  lemma VirtualMethod(enabled: bool, home: string, field: Option<string>, header: Option<string>)
    requires field == Some("put") || (field == None && header == Some("PUT"))
    ensures var d := Dispatcher(Config(enabled), [NewRoute("", [], ["PUT"], "/", home, None)]);
      && (!enabled ==> Dispatch(d, Request("POST", "/", field, header)) == Err(MethodNotAllowed))
      && (enabled ==> Dispatch(d, Request("POST", "/", field, header)).Ok?
                      && Dispatch(d, Request("POST", "/", field, header)).value.verb == "PUT"
                      && Dispatch(d, Request("POST", "/", field, header)).value.route.action == "index")
  {
    HomeRoute(home);
    SegmentsTrailingSlash("");
    assert Match([], []) == Some([]);
    VirtualRoute(enabled, NewRoute("", [], ["PUT"], "/", home, None), "/", field, header);
  }

  /** The same for any `PUT` route whose template matches the path. */
  lemma VirtualRoute(enabled: bool, r: Route, path: string, field: Option<string>, header: Option<string>)
    requires field == Some("put") || (field == None && header == Some("PUT"))
    requires r.methods == ["PUT"] && Match(Segments(r.path), Segments(path)).Some?
    ensures var d, req := Dispatcher(Config(enabled), [r]), Request("POST", path, field, header);
      && (!enabled ==> Dispatch(d, req) == Err(MethodNotAllowed))
      && (enabled ==> Dispatch(d, req).Ok? && Dispatch(d, req).value.verb == "PUT" && Dispatch(d, req).value.route == r)
  {
    var d, req := Dispatcher(Config(enabled), [r]), Request("POST", path, field, header);
    ToUpperPut();
    assert EffectiveMethod(d.config, req) == if enabled then "PUT" else "POST";
    DispatchOne(d, req);
  }

  /** The route `createRoute(['PUT'], '/', $home)` records outside any group. */
  lemma HomeRoute(home: string)
    ensures var r := NewRoute("", [], ["PUT"], "/", home, None);
      r.path == "/" && r.methods == ["PUT"] && r.action == "index"
  {
    assert "" + "/" == "/";
  }

  /** With one route, whose template matches the path, a request reaches it
      exactly when its method is one of the route's; otherwise the method is
      not allowed. */
  lemma DispatchOne(d: Dispatcher, req: Request)
    requires |d.routes| == 1 && Match(Segments(d.routes[0].path), Segments(req.path)).Some?
    ensures var verb := EffectiveMethod(d.config, req);
      && (verb in d.routes[0].methods ==>
            Dispatch(d, req).Ok? && Dispatch(d, req).value.route == d.routes[0] && Dispatch(d, req).value.verb == verb)
      && (verb !in d.routes[0].methods ==> Dispatch(d, req) == Err(MethodNotAllowed))
  {
    assert PathKnown(d.routes, Segments(req.path));
  }

  /** A router holding one route, created under no prefix, sends a request
      whose path its template matches to that route's controller and action
      (`index` when none was given) when the method is one of the route's,
      and answers `MethodNotAllowed` otherwise. */
  lemma CreatedRouteDispatch(config: Config, methods: seq<string>, path: string, controller: string,
                             action: Option<string>, req: Request)
    requires Match(Segments(path), Segments(req.path)).Some?
    ensures var d := Dispatcher(config, Collect("", [], [CreateRoute(methods, path, controller, action)]));
      var verb := EffectiveMethod(config, req);
      && (verb in methods ==>
            && Dispatch(d, req).Ok?
            && Dispatch(d, req).value.verb == verb
            && Dispatch(d, req).value.route.controller == controller
            && Dispatch(d, req).value.route.path == path
            && Dispatch(d, req).value.route.action == (if action.Some? then action.value else "index"))
      && (verb !in methods ==> Dispatch(d, req) == Err(MethodNotAllowed))
  {
    var cmd := CreateRoute(methods, path, controller, action);
    assert [cmd][1..] == [];
    assert Collect("", [], [cmd]) == [NewRoute("", [], methods, path, controller, action)];
    assert "" + path == path;
    DispatchOne(Dispatcher(config, Collect("", [], [cmd])), req);
  }

  /** `testSimpleDispatcher`: a route created for `GET` on `/` with no action
      receives a `GET` of `/` by its controller's `index`, with no path
      attributes, whatever the configuration. */
  lemma SimpleDispatch(config: Config, controller: string)
    ensures Dispatch(Dispatcher(config, Collect("", [], [CreateRoute(["GET"], "/", controller, None)])),
                     Request("GET", "/", None, None))
      == Ok(Dispatched(Route(["GET"], "/", controller, "index", []), "GET", []))
  {
    SegmentsTrailingSlash("");
    var req := Request("GET", "/", None, None);
    CreatedRouteDispatch(config, ["GET"], "/", controller, None, req);
    var d := Dispatcher(config, Collect("", [], [CreateRoute(["GET"], "/", controller, None)]));
    assert |d.routes| == 1;
    assert d.routes[0] == Route(["GET"], "/", controller, "index", []);
  }

  // ---------------------------------------------------------------------
  // Responses

  /** The handler's body wrapped by each middleware, the first outermost. */
  function Wrapped(rt: Runtime, middleware: seq<string>, verb: string, inner: string): string
    decreases |middleware|
  {
    if |middleware| == 0 then inner else rt.wrap(middleware[0], verb, Wrapped(rt, middleware[1..], verb, inner))
  }

  function Respond(rt: Runtime, r: Dispatched): string {
    Wrapped(rt, r.route.middleware, r.verb, rt.handle(r.route.controller, r.route.action, r.verb, r.attributes))
  }

  /** `TestDispatcherMiddleware`: the body is prefixed with the method and
      `auth success; `. */
  function AuthSuccess(verb: string, inner: string): string {
    "[" + verb + "] auth success; " + inner
  }

  /** A route with that one middleware answers with the handler's body
      behind `[M] auth success; `; a route without middleware answers with
      the body alone. */
  lemma RespondWrapped(rt: Runtime, r: Dispatched, name: string)
    requires forall m, inner :: rt.wrap(name, m, inner) == AuthSuccess(m, inner)
    ensures r.route.middleware == [name] ==>
      Respond(rt, r) == AuthSuccess(r.verb, rt.handle(r.route.controller, r.route.action, r.verb, r.attributes))
    ensures r.route.middleware == [] ==>
      Respond(rt, r) == rt.handle(r.route.controller, r.route.action, r.verb, r.attributes)
  {
    if r.route.middleware == [name] {
      var body := rt.handle(r.route.controller, r.route.action, r.verb, r.attributes);
      assert r.route.middleware[1..] == [];
      assert Wrapped(rt, [name], r.verb, body) == rt.wrap(name, r.verb, body);
    }
  }

  /** `withRoutes($callback)`: a fresh router runs the callback. */
  method WithRoutes(d: Dispatcher, cmds: seq<Command>) returns (d': Dispatcher)
    ensures d' == d.(routes := Collect("", [], cmds))
  {
    var router := new Router();
    router.Run(cmds);
    d' := d.(routes := router.routes);
  }

  /** A group's routes reach the prefix joined to their own paths: under
      the prefix `p`, a route for `q` matches the segments of `p` followed
      by those of `q`. */
  lemma GroupedRouteSegments(p: string, m: seq<string>, methods: seq<string>, q: string, controller: string,
                             action: Option<string>)
    requires |q| > 0 && q[0] == '/'
    ensures Segments(NewRoute(p, m, methods, q, controller, action).path) == Segments(p) + Segments(q)
  {
    SegmentsJoin(p, q);
  }
}
