# A verified model of the Wandu framework core

This project models six pieces of the Wandu PHP framework in Dafny and proves
what they promise.

- **The dependency-injection container.** Its tables are `keys`, `instances`,
  `closures`, `aliases`, `bind` and `frozen`. The operations are `has`,
  `destroy`, `get`, `instance`, `closure`, `bind`, `alias`, `wire`, `extend` and
  `freeze`, plus the constructor and the helpers `getOnlySeqArray`,
  `getParameters` and `getClassNameFromDocComment`.
  - `di_registry.dfy` states every operation as a function on a `Registry`
    value and proves the lemmas.
  - `di_parameters.dfy` models the argument-selection rule of
    `getParameters` and the doc-comment reader.
  - `di_container.dfy` is a `Container` class whose methods update the tables
    in place. Each method is proved against the functions of `di_registry.dfy`.
- **The restifier** (`restifier.dfy`). It covers the transformer table,
  `findTransformer`, the include parser `parseIncludes`, `restify` and
  `restifyMany`. A `Restifier` class holds the table and runs the loops;
  each method is proved against a specification function.
- **The WHERE serialiser** (`where_expression.dfy`): `WhereExpression::toSql`
  as a loop proved against a fold.
- **`MinTester`** (`validator.dfy`): a threshold predicate.
- **The request parameter bag** (`parameters.dfy`). It covers `get`, `has`,
  `toArray`, the fallback bag and the casts.
- **Route registration and dispatch.**
  - `router.dfy` is a `Router` class. Its `createRoute`, `group`, `prefix` and
    `middleware` methods grow a route table; they are proved against the
    routes a list of commands collects.
  - `dispatcher.dfy` covers path matching with `{name}` placeholders,
    `MethodNotAllowed` against route-not-found, method override and the
    wrapping of responses by middleware.

Two shared files support these. `wrappers.dfy` holds `Option`, `Result` and
`Outcome`. `php.dfy` holds the PHP semantics the models rely on:
- `explode` and `implode`, `strpos`, `strtoupper` and `ltrim`;
- the `(int)` cast and truthiness;
- ordered arrays as association lists, with assignment, `array_merge` and the
  integer-keyed items.

The `Parameter` class, the router and the dispatcher are not part of this
model's sources. Their behaviour is taken from the assertions of
`tests/Parameters/ParameterTest.php` and `tests/Router/DispatcherTest.php`,
which are cited below.

## Model

| member | source | states |
|---|---|---|
| DIContainer.Container.constructor | src/Container.php:38-43 | the tables start as the initial registry: `container` holds the container, `ContainerInterface` aliases it, and both are frozen |
| DIContainer.Container.Has | src/Container.php:80-83 | `has` is true exactly when the name has a kind in `keys` |
| DIContainer.Container.Destroy | src/Container.php:88-100 | the new tables and outcome are the registry's `destroy`: a frozen name fails with `CannotChange` unchanged; any other name leaves every table but `frozen` |
| DIContainer.Container.Freeze | src/Container.php:228-232 | the name joins `frozen` and no other table changes |
| DIContainer.Container.Instance | src/Container.php:134-140 | the new tables and outcome are the registry's `instance`: destroy, then kind `instance` with the value; a frozen name fails unchanged |
| DIContainer.Container.Closure | src/Container.php:145-151 | the new tables and outcome are the registry's `closure`: destroy, then kind `closure` with the handler; a frozen name fails unchanged |
| DIContainer.Container.Alias | src/Container.php:173-179 | the new tables and outcome are the registry's `alias`: destroy, then kind `alias` with the origin; a frozen name fails unchanged |
| DIContainer.Container.Bind | src/Container.php:156-168 | the new tables and outcome are the registry's `bind`: the class defaults to the name, and a different class becomes an alias of the name |
| DIContainer.Container.Wire | src/Container.php:184-189 | `bind`, then the kind `wire` when `bind` succeeded |
| DIContainer.Container.Get | src/Container.php:105-129 | the loop follows the alias chain, freezing each name, and ends in the state and value of the registry's `get` |
| DIContainer.Container.Extend | src/Container.php:194-213 | the loop follows aliases to the registry's `extend`; an unregistered name fails unchanged |
| DIContainer.Container.GetOnlySeqArray | src/Container.php:337-346 | exactly the values under integer keys, in their order |
| DIContainer.Container.GetParameters | src/Container.php:315-331 | the arguments chosen and the new container state are those of the selection rule |
| DIRegistry.ApplyKeepsValid | src/Container.php:88-213 | every operation keeps the payload tables consistent with `keys` |
| DIRegistry.FrozenNeverShrinks | src/Container.php:228-232 | no operation removes a name from `frozen` |
| DIRegistry.InstanceThenGet | src/Container.php:134-140 | after `instance(n, v)` on a name not frozen, `has(n)` holds and `get(n)` returns `v`, null included |
| DIRegistry.DestroyFrozen | src/Container.php:90-92 | `destroy` of a frozen name throws and changes nothing |
| DIRegistry.DestroyRemoves | src/Container.php:93-99 | `destroy` removes the name from every table but `frozen`, so `has` is false after it, and other names keep their entries |
| DIRegistry.FrozenRejectsChanges | src/Container.php:90-92 | on a frozen name, `instance`, `closure`, `bind`, `alias`, `wire` and `destroy` all throw and change nothing |
| DIRegistry.GetUnregistered | src/Container.php:107-109 | `get` of an unregistered name throws `NullReference` and changes nothing |
| DIRegistry.GetFreezes | src/Container.php:110 | a `get` that returns leaves the name frozen, so every later rebinding of it throws |
| DIRegistry.AliasGet | src/Container.php:111-113 | `get` of an alias freezes it and is `get` of its origin |
| DIRegistry.AliasCycleRevisits | src/Container.php:111-113 | the alias-cycle error arises only when the alias chain visits some name twice |
| DIRegistry.GetChainFuel | src/Container.php:111-113 | more hop budget does not change a `get` that ended without the cycle error |
| DIRegistry.GetCaches | src/Container.php:114-128 | a non-null product of a factory kind is cached: the next `get` returns it and changes nothing |
| DIRegistry.GetSetInstance | src/Container.php:114 | a set instance is returned without calling the factory; only the name is frozen |
| DIRegistry.NullProductNotCached | src/Container.php:114-117 | a factory that produced null is called again, because `isset` does not see null |
| DIRegistry.BindWithClass | src/Container.php:156-168 | `bind(n, c)` with `n != c` binds `n` to `c` and aliases `c` to `n`; both names yield a new `c` object |
| DIRegistry.BindSelf | src/Container.php:158-163 | `bind(n)` binds `n` to itself and writes no alias |
| DIRegistry.BindFrozenClass | src/Container.php:161-166 | with `c` frozen, `bind(n, c)` leaves `n` bound and throws for `c` |
| DIRegistry.WireIsBind | src/Container.php:184-189 | `wire` fails exactly as `bind` does, and after a successful call every name resolves through `get` to the same value as after `bind` |
| DIRegistry.ExtendInstance | src/Container.php:194-205 | `extend` of an unregistered name throws and changes nothing; on an instance it replaces the value by the handler's result |
| DIRegistry.ExtendThenGet | src/Container.php:206-211 | after `extend` of an uncalled factory, `get` yields the handler applied to the product |
| DIRegistry.InitialState | src/Container.php:38-43 | after construction `container` holds the container, `ContainerInterface` aliases it, and both are frozen |
| DIParameters.ParametersAllGiven | src/Container.php:317-321 | parameters all given by name take those arguments in parameter order, then every positional argument |
| DIParameters.ParametersPositional | src/Container.php:318-330 | parameters with no named argument and no class hint take the positional arguments in order, null once they run out; the leftovers follow |
| DIParameters.ParameterFromContainer | src/Container.php:322-323 | a class-hinted parameter with no named argument is `get` of the class, with `get`'s effect on the container |
| DIParameters.ParametersNoArguments | src/Container.php:324-327 | with no arguments, the first parameter with neither a name match nor a class hint throws |
| DIParameters.Padded | src/Container.php:325 | shifting `n` times and keeping the rest gives the queue padded with nulls to `n` items |
| DIParameters.ClassNameRead | src/Container.php:296-308 | after the first `@var` (whatever comes before it, `@Autowired` included), blanks and a class token, the class is the token without one leading backslash |
| DIParameters.ClassNameAbsent | src/Container.php:302-303 | with no class token after the first `@var`, there is no class |
| DIParameters.ClassNameNoMarker | src/Container.php:298-301 | a comment without `@var` names no class |
| DIParameters.ClassNameAutowired | src/Container.php:273-274 | the comment `inject` reads, `@Autowired` before `@var \C`, yields `C` |
| Restifier.Restifier.constructor | src/Wandu/Restifier/Restifier.php:13-18 | the table is every entry registered in turn |
| Restifier.Restifier.AddTransformer | src/Wandu/Restifier/Restifier.php:24-31 | the table is the old one with the name assigned: overwritten in place, or appended |
| Restifier.RegisterLookup | src/Wandu/Restifier/Restifier.php:13-18 | after registration a name holds the transformer given for it last, or what it held before |
| Restifier.Restifier.FindTransformer | src/Wandu/Restifier/Restifier.php:67-86 | the scan's result is the lookup rule `TransformerFor` |
| Restifier.FirstInstance | src/Wandu/Restifier/Restifier.php:74-78 | the first registered name the resource is an instance of, or none |
| Restifier.TransformerForCases | src/Wandu/Restifier/Restifier.php:67-86 | the exact class wins; otherwise the first instance match; the two error messages; an error exactly when neither applies |
| Restifier.Restifier.SettleCondition | src/Wandu/Restifier/Restifier.php:101-103 | the loop calls a callable condition until it is not callable, as `Settle` does |
| Restifier.Settle | src/Wandu/Restifier/Restifier.php:101-103 | a settled condition is never callable |
| Restifier.SettleFuel | src/Wandu/Restifier/Restifier.php:101-103 | more call budget does not change a condition that has settled |
| Restifier.SettleSelfCall | src/Wandu/Restifier/Restifier.php:101-103 | a callable that returns itself never settles |
| Restifier.SurvivorsCases | src/Wandu/Restifier/Restifier.php:96-104 | an integer-keyed entry survives; a string-keyed entry survives exactly when the condition it settles to, after as many calls as it takes, is truthy (a non-callable truthy or falsy value is its own settled condition); a condition that does not settle is the parse's error |
| Restifier.KeyParamExplode | src/Wandu/Restifier/Restifier.php:105-110 | key and parameter are the two pieces of `explode` at the first dot; no dot gives no parameter |
| Restifier.GroupKeys | src/Wandu/Restifier/Restifier.php:111-113 | a key is in the result exactly when some surviving include has it |
| Restifier.GroupParams | src/Wandu/Restifier/Restifier.php:114-116 | each key holds its non-empty parameters in input order |
| Restifier.ParamsForAbsent | src/Wandu/Restifier/Restifier.php:114-116 | includes with another key add no parameter |
| Restifier.GroupExamples | src/Wandu/Restifier/Restifier.php:105-116 | `a.b.c` gives key `a` with `b.c`; `a.` and `a.0` create `a` with no parameter |
| Restifier.Restifier.ParseIncludes | src/Wandu/Restifier/Restifier.php:93-119 | the loop's result is `IncludesOf`, the grouping of the surviving includes |
| Restifier.Restifier.Restify | src/Wandu/Restifier/Restifier.php:36-53 | the loop's result is `RestifyOf` |
| Restifier.RestifyNull | src/Wandu/Restifier/Restifier.php:38 | null gives null, whatever the table |
| Restifier.RestifyNotFound | src/Wandu/Restifier/Restifier.php:39-41 | without a given transformer, a failed lookup is the error of `restify` |
| Restifier.ApplyIncludesKeeps | src/Wandu/Restifier/Restifier.php:44-51 | the transformer's integer-keyed values come first, in order; with no include methods the entity is unchanged |
| Restifier.ApplyIncludeOverrides | src/Wandu/Restifier/Restifier.php:46-49 | a string key set by an include method takes that method's value |
| Restifier.Restifier.RestifyMany | src/Wandu/Restifier/Restifier.php:58-65 | the loop's result is `RestifyManyOf` |
| Restifier.RestifyManyKeys | src/Wandu/Restifier/Restifier.php:58-65 | with distinct input keys, the result has the same keys in order, each holding `restify` of its value |
| Restifier.RestifyManyFails | src/Wandu/Restifier/Restifier.php:61-63 | the result is an error exactly when `restify` of some value fails |
| WhereExpression.ToSql | src/Wandu/Database/Query/Expression/WhereExpression.php:12-22 | the loop's result is `Where` of the expressions and operators |
| WhereExpression.WhereEmpty | src/Wandu/Database/Query/Expression/WhereExpression.php:14-21 | no expressions give `""` |
| WhereExpression.WhereShape | src/Wandu/Database/Query/Expression/WhereExpression.php:14-21 | the result is `""` exactly when there is no expression or a single falsy one (`""` or `"0"`); otherwise it is `WHERE `, the first expression, then each later expression behind its spaced operator |
| WhereExpression.WhereSingle | src/Wandu/Database/Query/Expression/WhereExpression.php:15-21 | one expression `e` gives `WHERE e` |
| WhereExpression.WhereZero | src/Wandu/Database/Query/Expression/WhereExpression.php:21 | the lone expression `0` gives `""`, since PHP reads `"0"` as false |
| WhereExpression.BodyAppend | src/Wandu/Database/Query/Expression/WhereExpression.php:16-19 | a later expression is preceded by its own operator, spaced |
| WhereExpression.BodyIsJoined | src/Wandu/Database/Query/Expression/WhereExpression.php:15-20 | the body is the first expression, then for each later index its operator and expression, in order, each once |
| WhereExpression.FirstOperatorUnused | src/Wandu/Database/Query/Expression/WhereExpression.php:16-17 | operator 0 is never emitted |
| WhereExpression.WhereTwo | src/Wandu/Database/Query/Expression/WhereExpression.php:5-8 | two expressions give `WHERE a OP b` with the operator at index 1 |
| Validator.TestBoundary | src/Wandu/Validator/Testers/MinTester.php:24 | `min` passes and `min - 1` fails |
| Validator.TestMonotone | src/Wandu/Validator/Testers/MinTester.php:24 | a value above a passing value passes |
| Validator.TestAntitone | src/Wandu/Validator/Testers/MinTester.php:14-17 | a higher threshold accepts fewer values |
| Validator.TestIgnoresContext | src/Wandu/Validator/Testers/MinTester.php:22-24 | the result does not depend on `origin` or `keys` |
| Parameters.GetPresent | tests/Parameters/ParameterTest.php:9-29 | a key the bag holds is present and returned, null included, whatever the default |
| Parameters.GetIntoScalar | tests/Parameters/ParameterTest.php:19-20 | a dotted name into a non-array is absent and gives the default |
| Parameters.GetDefault | tests/Parameters/ParameterTest.php:81-90 | the default is returned exactly when the name is absent |
| Parameters.GetFallback | tests/Parameters/ParameterTest.php:92-129 | the bag's own value wins; otherwise the fallback answers; `has` is true exactly when either holds the name |
| Parameters.Union | tests/Parameters/ParameterTest.php:74-78 | the union starts with the own entries, unchanged |
| Parameters.UnionLookup | tests/Parameters/ParameterTest.php:74-78 | a key reads from the own entries when present there, else from the fallback's |
| Parameters.ToArrayShape | tests/Parameters/ParameterTest.php:53-79 | `toArray` starts with the own entries; each key reads as the bag, then the fallback, would give it |
| Parameters.ToArrayAgrees | tests/Parameters/ParameterTest.php:53-79 | a plain name is a key of `toArray` exactly when `has` holds it, with the value `get` returns |
| Parameters.CastNamed | tests/Parameters/ParameterTest.php:178-203 | `int[]` and `integer[]` name the integer-list cast, `bool` and `boolean` the boolean cast |
| Parameters.CastSplitJoin | tests/Parameters/ParameterTest.php:184-194 | a string cast to `string[]` or `array` is split at commas; cast back to `string` it is the original |
| Parameters.CastStringList | tests/Parameters/ParameterTest.php:178-182 | a list of strings is unchanged by `array` and `string[]` and joins with commas under `string` |
| Parameters.CastIntList | tests/Parameters/ParameterTest.php:178-191 | `int[]` reads every item as an integer, under its own key |
| Parameters.CastDecimals | tests/Parameters/ParameterTest.php:184-185 | numbers written out and joined by commas come back under `int[]` |
| Parameters.CastNumbers | tests/Parameters/ParameterTest.php:184 | `10,20,30` under `int[]` is the list 10, 20, 30 |
| Parameters.CastTenList | tests/Parameters/ParameterTest.php:190 | `10` under `int[]` is the list holding 10 |
| Parameters.CastTenInt | tests/Parameters/ParameterTest.php:196 | `10` under `int` is 10 |
| Parameters.CastBooleans | tests/Parameters/ParameterTest.php:200-203 | `false` is false; `true` and `10` are true |
| Parameters.ToArrayCast | tests/Parameters/ParameterTest.php:163-171 | the cast array has one entry per entry of `toArray` |
| Parameters.ToArrayCastEntries | tests/Parameters/ParameterTest.php:163-171 | every key stays in place; exactly the named keys are cast and the rest are unchanged |
| Parameters.ToArrayNoCast | tests/Parameters/ParameterTest.php:163-171 | with no casts, `toArray` is unchanged |
| Router.Router.constructor | tests/Router/DispatcherTest.php:18-20 | a new router has no routes, no prefix and no middleware |
| Router.Router.CreateRoute | tests/Router/DispatcherTest.php:18-20 | one route is appended under the current prefix and middleware |
| Router.Router.Group | tests/Router/DispatcherTest.php:96-106 | the body's routes are appended under the extended prefix and middleware, which are then restored |
| Router.Router.Prefix | tests/Router/DispatcherTest.php:137-144 | the body's routes are appended under the extended prefix |
| Router.Router.Middleware | tests/Router/DispatcherTest.php:175-181 | the body's routes are appended under the extended middleware |
| Router.Router.Apply | tests/Router/DispatcherTest.php:96-106 | one call appends exactly the routes that call collects |
| Router.Router.Run | tests/Router/DispatcherTest.php:96-106 | a callback appends the routes its calls collect, in order |
| Router.CollectAppend | tests/Router/DispatcherTest.php:96-106 | the routes of one list of calls followed by another are those of the first, then the second |
| Router.PrefixMiddlewareAreGroups | tests/Router/DispatcherTest.php:133-200 | `prefix` and `middleware` are `group` with only that key |
| Router.CollectNested | tests/Router/DispatcherTest.php:96-106 | every route inside a group starts with its prefix and its middleware |
| Dispatcher.WithRoutes | tests/Router/DispatcherTest.php:18-20 | the dispatcher holds the routes a fresh router collects from the callback |
| Dispatcher.SegmentsJoin | tests/Router/DispatcherTest.php:139-142 | a prefix joined to a path that starts with `/` has the prefix's segments, then the path's |
| Dispatcher.SegmentsTrailingSlash | tests/Router/DispatcherTest.php:151-154 | `/` has no segments, so `/admin` plus `/` matches `/admin` |
| Dispatcher.GroupedRouteSegments | tests/Router/DispatcherTest.php:137-159 | a route created under a prefix matches the prefix's segments followed by its own |
| Dispatcher.MatchIff | tests/Router/DispatcherTest.php:55-71 | a template matches exactly the paths of its length that agree on every static segment |
| Dispatcher.MatchBinds | tests/Router/DispatcherTest.php:79-89 | every placeholder binds its own segment, and every binding comes from a placeholder |
| Dispatcher.MatchUser | tests/Router/DispatcherTest.php:79-89 | `/admin/users/{user}` binds `user` to `37` and rejects paths of other lengths |
| Dispatcher.FirstAnswer | tests/Router/DispatcherTest.php:33-44 | the first route, in order, whose methods and template both fit, or none |
| Dispatcher.DispatchFound | tests/Router/DispatcherTest.php:33-44 | a dispatched request reaches the first fitting route, with its template's bindings and the effective method |
| Dispatcher.DispatchErrors | tests/Router/DispatcherTest.php:46-52 | `MethodNotAllowed` exactly when some template matches but no fitting route exists; not found exactly when no template matches |
| Dispatcher.DispatchByMethod | tests/Router/DispatcherTest.php:28-52 | two routes for one path: each method reaches its own route, any other method is not allowed |
| Dispatcher.CreatedRouteDispatch | tests/Router/DispatcherTest.php:18-25 | a single created route receives every request whose path it matches and whose method it lists, by its controller and its action (`index` when none was given); other methods are not allowed |
| Dispatcher.SimpleDispatch | tests/Router/DispatcherTest.php:14-26 | a `GET` of `/` reaches the route created for `GET` on `/`, by its controller's `index`, with no path attributes |
| Dispatcher.OverrideDisabled | tests/Router/DispatcherTest.php:203-222 | with virtual methods off, neither the `_method` field nor the header changes the outcome |
| Dispatcher.OverrideEnabled | tests/Router/DispatcherTest.php:224-268 | with virtual methods on, the uppercased `_method` field decides, and the header when there is no field |
| Dispatcher.VirtualMethod | tests/Router/DispatcherTest.php:203-268 | a `POST` with `_method=put` or the header `PUT` reaches the `PUT` route only with virtual methods on |
| Dispatcher.RespondWrapped | tests/Router/DispatcherTest.php:171-200 | a route with the auth middleware answers `[M] auth success; ` before the body; one without answers the body alone |

## Left out

- `create`, `call`, `inject` and `__call` in `src/Container.php` rest on PHP reflection and dynamic calls. Class creation, factory calls and `extend` handlers are opaque functions of a `Runtime`. `wire`'s `inject` step is not modelled.
- DIRegistry.Get: factory and constructor calls cannot read or change the container. In PHP a closure receives the container as `$this`, and `create` resolves constructor hints through `get`; both can freeze and cache other names. This model's `get` of a closure or a bound class leaves every other name as it was.
- `register` and `boot` call into service providers, whose code is not part of this model.
- `getParameters` works over an abstract parameter list, with a "has class hint" flag instead of reflection. That `getClass` can throw for a missing class is not modelled.
- DIRegistry.Get: an alias cycle never ends in PHP; the model follows at most as many hops as there are names and then reports the cycle.
- DIRegistry.Extend, DIRegistry.ExtendChain, DIContainer.Container.Extend: on an alias cycle `extend` recurses forever in PHP; the model stops after as many hops as there are names with `AliasCycle`.
- DIRegistry.Get: `create` throws `CannotResolveException` when a constructor parameter cannot be resolved, and a factory or constructor may throw anything. Those exceptions are not modelled: `create` and factory calls always return a value, so `get` of a bound, wired or factory name never fails.
- `getClassNameFromDocComment` with `@var` and no class token is, in PHP, an error on an undefined index; the model returns no class there.
- `addTransformer` throws for a non-callable transformer; the model's transformers are always callable, so that error path is not modelled.
- Restifier.Settle: a callable condition that keeps yielding callables never ends in PHP; the model stops after a call budget with `ConditionDiverges`.
- `is_callable`, `instanceof`, `method_exists` and calling a transformer are abstract functions of a `Runtime`. A transformer receives the table in place of `$this`.
- Restifier.RestifyManyKeys: stated for inputs with distinct keys, which is what a PHP array is.
- WhereExpression: the sub-expressions are given as the SQL they render, with sequential integer keys.
- Validator: `MinTester` is over integers, as its doc comment declares. The lemmas are direct consequences of the comparison. A `MinTester` is an immutable value, so `test` cannot change `min`.
- Parameters: the `Parameter` class is not part of this model; its behaviour is taken from the test assertions. The float casts (`number`, `float`, `double`) and unknown cast names are not modelled. Numeric string keys are not normalised to integers.
- Parameters.GetCast: with a cast, a value found is cast and the default is returned uncast; the tests do not pin down the default's treatment.
- The router and dispatcher are not part of this model; their behaviour is taken from the test assertions. A routes callback is a list of commands.
- Dispatcher: paths are compared by their non-empty segments. The method override applies whatever the request's own method. PSR-7 requests, responses and streams are plain values and strings. Handlers and middleware are opaque functions of a `Runtime`.
