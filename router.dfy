/** Route registration: a router collects routes while a routes callback
    calls `createRoute`, `group`, `prefix` and `middleware` on it. What the
    callback does is given as a list of commands, nested for the callbacks
    of `group`, `prefix` and `middleware`. */
module Router {
  import opened Wrappers

  /** A registered route: the methods it answers, its full path template,
      the controller class and method, and its middleware, outermost first. */
  datatype Route = Route(methods: seq<string>, path: string, controller: string, action: string, middleware: seq<string>)

  /** The attributes array of `group`. */
  datatype GroupAttrs = GroupAttrs(prefix: Option<string>, middleware: seq<string>)

  /** One call a routes callback makes on the router. */
  datatype Command =
    | CreateRoute(methods: seq<string>, path: string, controller: string, action: Option<string>)
    | Group(attrs: GroupAttrs, body: seq<Command>)
    | Prefix(prefix: string, body: seq<Command>)
    | Middleware(middleware: seq<string>, body: seq<Command>)

  /** The route `createRoute` records under the current prefix and
      middleware; a route given no action runs the controller's `index`. */
  function NewRoute(prefix: string, middleware: seq<string>, methods: seq<string>, path: string,
                    controller: string, action: Option<string>): Route
  {
    Route(methods, prefix + path, controller, action.GetOr("index"), middleware)
  }

  /** The routes a list of commands registers under a prefix and middleware. */
  function Collect(prefix: string, middleware: seq<string>, cmds: seq<Command>): seq<Route>
    decreases cmds
  {
    if |cmds| == 0 then [] else CollectOne(prefix, middleware, cmds[0]) + Collect(prefix, middleware, cmds[1..])
  }

  function CollectOne(prefix: string, middleware: seq<string>, c: Command): seq<Route>
    decreases c
  {
    match c
    case CreateRoute(methods, path, controller, action) => [NewRoute(prefix, middleware, methods, path, controller, action)]
    case Group(attrs, body) => Collect(prefix + attrs.prefix.GetOr(""), middleware + attrs.middleware, body)
    case Prefix(p, body) => Collect(prefix + p, middleware, body)
    case Middleware(m, body) => Collect(prefix, middleware + m, body)
  }

  /** Registering one list of commands after another registers the routes of
      both, in order: a group does not affect the routes outside it. */
  lemma {:induction false} CollectAppend(prefix: string, middleware: seq<string>, a: seq<Command>, b: seq<Command>)
    ensures Collect(prefix, middleware, a + b) == Collect(prefix, middleware, a) + Collect(prefix, middleware, b)
    decreases |a|
  {
    if |a| > 0 {
      assert (a + b)[0] == a[0] && (a + b)[1..] == a[1..] + b;
      CollectAppend(prefix, middleware, a[1..], b);
    } else {
      assert a + b == b;
    }
  }

  /** `prefix($p, ...)` is `group(['prefix' => $p], ...)`, and
      `middleware($m, ...)` is `group(['middleware' => $m], ...)`. */
  lemma PrefixMiddlewareAreGroups(prefix: string, middleware: seq<string>, p: string, m: seq<string>, body: seq<Command>)
    ensures CollectOne(prefix, middleware, Prefix(p, body))
      == CollectOne(prefix, middleware, Group(GroupAttrs(Some(p), []), body))
    ensures CollectOne(prefix, middleware, Middleware(m, body))
      == CollectOne(prefix, middleware, Group(GroupAttrs(None, m), body))
  {
    assert middleware + [] == middleware;
    assert prefix + "" == prefix;
  }

  /** Every route registered under a prefix and middleware has a path that
      starts with the prefix and middleware that starts with the given. */
  lemma {:induction false} CollectNested(prefix: string, middleware: seq<string>, cmds: seq<Command>)
    ensures forall r :: r in Collect(prefix, middleware, cmds) ==> prefix <= r.path && middleware <= r.middleware
    decreases cmds
  {
    if |cmds| > 0 {
      CollectOneNested(prefix, middleware, cmds[0]);
      CollectNested(prefix, middleware, cmds[1..]);
    }
  }

  lemma {:induction false} CollectOneNested(prefix: string, middleware: seq<string>, c: Command)
    ensures forall r :: r in CollectOne(prefix, middleware, c) ==> prefix <= r.path && middleware <= r.middleware
    decreases c
  {
    match c
    case CreateRoute(methods, path, controller, action) =>
    case Group(attrs, body) =>
      var p, m := prefix + attrs.prefix.GetOr(""), middleware + attrs.middleware;
      CollectNested(p, m, body);
      forall r | r in Collect(p, m, body) ensures prefix <= r.path && middleware <= r.middleware {
        PrefixOfPrefix(prefix, attrs.prefix.GetOr(""), r.path);
        PrefixOfPrefix(middleware, attrs.middleware, r.middleware);
      }
    case Prefix(q, body) =>
      CollectNested(prefix + q, middleware, body);
      forall r | r in Collect(prefix + q, middleware, body) ensures prefix <= r.path {
        PrefixOfPrefix(prefix, q, r.path);
      }
    case Middleware(m, body) =>
      CollectNested(prefix, middleware + m, body);
      forall r | r in Collect(prefix, middleware + m, body) ensures middleware <= r.middleware {
        PrefixOfPrefix(middleware, m, r.middleware);
      }
  }

  lemma PrefixOfPrefix<T>(a: seq<T>, b: seq<T>, c: seq<T>)
    requires a + b <= c
    ensures a <= c
  {
    assert c[..|a|] == (a + b)[..|a|];
  }

  /** The router, holding the routes registered so far and the prefix and
      middleware of the group being run. */
  class Router {
    var routes: seq<Route>
    var prefix: string
    var middleware: seq<string>

    constructor()
      ensures routes == [] && prefix == "" && middleware == []
    {
      routes, prefix, middleware := [], "", [];
    }

    /** `createRoute($methods, $path, $controller, $action)`. */
    method CreateRoute(methods: seq<string>, path: string, controller: string, action: Option<string>)
      modifies this
      ensures routes == old(routes) + [NewRoute(prefix, middleware, methods, path, controller, action)]
      ensures prefix == old(prefix) && middleware == old(middleware)
    {
      routes := routes + [NewRoute(prefix, middleware, methods, path, controller, action)];
    }

    /** `group($attributes, $handler)`: the callback runs with the prefix
        extended and the middleware appended, which are then restored. */
    method Group(attrs: GroupAttrs, body: seq<Command>)
      modifies this
      ensures routes == old(routes) + Collect(old(prefix) + attrs.prefix.GetOr(""), old(middleware) + attrs.middleware, body)
      ensures prefix == old(prefix) && middleware == old(middleware)
      decreases body, 1
    {
      var savedPrefix, savedMiddleware := prefix, middleware;
      prefix := prefix + attrs.prefix.GetOr("");
      middleware := middleware + attrs.middleware;
      Run(body);
      prefix, middleware := savedPrefix, savedMiddleware;
    }

    /** `prefix($prefix, $handler)`. */
    method Prefix(p: string, body: seq<Command>)
      modifies this
      ensures routes == old(routes) + Collect(old(prefix) + p, old(middleware), body)
      ensures prefix == old(prefix) && middleware == old(middleware)
      decreases body, 2
    {
      Group(GroupAttrs(Some(p), []), body);
      assert old(middleware) + [] == old(middleware);
    }

    /** `middleware($middlewares, $handler)`. */
    method Middleware(m: seq<string>, body: seq<Command>)
      modifies this
      ensures routes == old(routes) + Collect(old(prefix), old(middleware) + m, body)
      ensures prefix == old(prefix) && middleware == old(middleware)
      decreases body, 2
    {
      Group(GroupAttrs(None, m), body);
      assert old(prefix) + "" == old(prefix);
    }

    /** Runs one call of a routes callback. */
    method Apply(c: Command)
      modifies this
      ensures routes == old(routes) + CollectOne(old(prefix), old(middleware), c)
      ensures prefix == old(prefix) && middleware == old(middleware)
      decreases c, 0
    {
      match c
      case CreateRoute(methods, path, controller, action) =>
        CreateRoute(methods, path, controller, action);
      case Group(attrs, body) =>
        Group(attrs, body);
      case Prefix(p, body) =>
        Prefix(p, body);
      case Middleware(m, body) =>
        Middleware(m, body);
    }

    /** Runs a routes callback: its calls, in order. */
    method Run(cmds: seq<Command>)
      modifies this
      ensures routes == old(routes) + Collect(old(prefix), old(middleware), cmds)
      ensures prefix == old(prefix) && middleware == old(middleware)
      decreases cmds, 0
    {
      for i := 0 to |cmds|
        invariant prefix == old(prefix) && middleware == old(middleware)
        invariant old(routes) + Collect(prefix, middleware, cmds) == routes + Collect(prefix, middleware, cmds[i..])
      {
        assert cmds[i..][0] == cmds[i] && cmds[i..][1..] == cmds[i + 1..];
        ghost var before := routes;
        Apply(cmds[i]);
        assert before + (CollectOne(prefix, middleware, cmds[i]) + Collect(prefix, middleware, cmds[i + 1..]))
          == routes + Collect(prefix, middleware, cmds[i + 1..]);
      }
      assert cmds[|cmds|..] == [];
    }
  }
}
