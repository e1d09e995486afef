/** The state of the dependency-injection container as a value, and each of
    its operations as a function from the old state to the new state and
    the outcome (a thrown exception becomes `Fail`/`Err`). The class in
    di_container.dfy is proved to implement exactly these functions; the
    lemmas here state what the container promises. */
module DIRegistry {
  import opened Wrappers

  /** The binding kind recorded in `keys`. */
  datatype Kind = InstanceKind | ClosureKind | BindKind | WireKind | AliasKind

  /** A PHP value held by the container. `Null` matters because `isset` is
      false for it; `Self` is the container object itself; every other value
      is opaque. */
  datatype Value = Null | Self | Data(id: nat)

  /** A factory stored in `closures`: a registered handler, or one that
      `extend` wrapped so that its product is passed through another handler. */
  datatype Factory = Handler(id: nat) | Extended(inner: Factory, handler: nat)

  datatype Error =
    | CannotChange(name: string)   // CannotChangeException
    | NullReference(name: string)  // NullReferenceException
    | AliasCycle(name: string)     // the alias chain revisits a name: PHP recurses without end
    | ParameterUnresolved          // RuntimeException('Fail to get parameter.')

  /** What the model leaves opaque: calling a handler on an argument
      (`call_user_func`), and creating an object of a class by reflection
      (`create`). */
  datatype Runtime = Runtime(call: (nat, Value) -> Value, create: string -> Value)

  /** The value a stored factory produces when `get` calls it with the container. */
  function Run(rt: Runtime, f: Factory): Value {
    match f
    case Handler(id) => rt.call(id, Self)
    case Extended(inner, h) => rt.call(h, Run(rt, inner))
  }

  /** The parallel tables of the container. */
  datatype Registry = Registry(
    keys: map<string, Kind>,
    closures: map<string, Factory>,
    instances: map<string, Value>,
    aliases: map<string, string>,
    bind: map<string, string>,
    frozen: set<string>)

  /** How the tables agree with `keys` at one name: the payload tables hold
      exactly the names of their kind, and `instances` only non-alias names. */
  predicate Consistent(r: Registry, n: string) {
    && (n in r.aliases <==> n in r.keys && r.keys[n] == AliasKind)
    && (n in r.closures <==> n in r.keys && r.keys[n] == ClosureKind)
    && (n in r.bind <==> n in r.keys && (r.keys[n] == BindKind || r.keys[n] == WireKind))
    && (n in r.instances ==> n in r.keys && r.keys[n] != AliasKind)
    && (n in r.keys && r.keys[n] == InstanceKind ==> n in r.instances)
  }

  /** The invariant every operation keeps (`frozen` plays no part in it). */
  ghost predicate Valid(r: Registry) {
    forall n :: Consistent(r, n)
  }

  /** `has($name)`. */
  predicate Has(r: Registry, n: string) {
    n in r.keys
  }

  /** `isset($this->instances[$name])`: present and not null. */
  predicate IsSet(r: Registry, n: string) {
    n in r.instances && r.instances[n] != Null
  }

  /** The new state and outcome of an operation that returns `$this` or throws. */
  datatype Step = Step(reg: Registry, outcome: Outcome<Error>)

  /** The new state and result of `get`. */
  datatype Got = Got(reg: Registry, result: Result<Value, Error>)

  const Empty := Registry(map[], map[], map[], map[], map[], {})

  /** The name the constructor aliases to `container`: `ContainerInterface::class`. */
  const InterfaceName := "Wandu\\DI\\ContainerInterface"

  /** The `unset` of `destroy`: `n` leaves every table but `frozen`. */
  function Remove(r: Registry, n: string): Registry {
    r.(keys := r.keys - {n}, closures := r.closures - {n}, instances := r.instances - {n},
       aliases := r.aliases - {n}, bind := r.bind - {n})
  }

  function Destroy(r: Registry, n: string): Step {
    if n in r.frozen then Step(r, Fail(CannotChange(n))) else Step(Remove(r, n), Pass)
  }

  function Freeze(r: Registry, n: string): Registry {
    r.(frozen := r.frozen + {n})
  }

  function Instance(r: Registry, n: string, v: Value): Step {
    var d := Destroy(r, n);
    if d.outcome.Fail? then d
    else Step(d.reg.(keys := d.reg.keys[n := InstanceKind], instances := d.reg.instances[n := v]), Pass)
  }

  function Closure(r: Registry, n: string, handler: nat): Step {
    var d := Destroy(r, n);
    if d.outcome.Fail? then d
    else Step(d.reg.(keys := d.reg.keys[n := ClosureKind], closures := d.reg.closures[n := Handler(handler)]), Pass)
  }

  function Alias(r: Registry, n: string, origin: string): Step {
    var d := Destroy(r, n);
    if d.outcome.Fail? then d
    else Step(d.reg.(keys := d.reg.keys[n := AliasKind], aliases := d.reg.aliases[n := origin]), Pass)
  }

  /** `bind($name, $class = null)`: the class defaults to the name; a
      different class name becomes an alias of `n`. If that alias cannot be
      written (the class name is frozen), `n` stays bound and the call fails. */
  function Bind(r: Registry, n: string, given: Option<string>): Step {
    var cls := given.GetOr(n);
    var d := Destroy(r, n);
    if d.outcome.Fail? then d
    else
      var b := d.reg.(keys := d.reg.keys[n := BindKind], bind := d.reg.bind[n := cls]);
      if n != cls then Alias(b, cls, n) else Step(b, Pass)
  }

  /** `wire` is `bind` followed by recording the kind `wire`; a failing
      `bind` leaves the kind it wrote. */
  function Wire(r: Registry, n: string, cls: Option<string>): Step {
    var s := Bind(r, n, cls);
    if s.outcome.Fail? then s
    else Step(s.reg.(keys := s.reg.keys[n := WireKind]), Pass)
  }

  /** `get($name)`, following at most as many alias hops as there are
      names: a longer chain revisits a name (see AliasCycleRevisits). */
  function Get(rt: Runtime, r: Registry, n: string): Got
    requires Valid(r)
  {
    GetChain(rt, r, n, |r.keys|)
  }

  function GetChain(rt: Runtime, r: Registry, n: string, fuel: nat): Got
    requires Valid(r)
    decreases fuel
  {
    if n !in r.keys then Got(r, Err(NullReference(n)))
    else
      assert Consistent(r, n);
      var f := Freeze(r, n);
      match r.keys[n]
      case AliasKind =>
        if fuel == 0 then Got(f, Err(AliasCycle(n)))
        else FreezeKeeps(r, n); GetChain(rt, f, r.aliases[n], fuel - 1)
      case InstanceKind => Got(f, Ok(r.instances[n]))
      case ClosureKind => Produce(f, n, Run(rt, r.closures[n]))
      case BindKind => Produce(f, n, rt.create(r.bind[n]))
      case WireKind => Produce(f, n, rt.create(r.bind[n]))
  }

  /** The cache step of `get`: a set instance is returned as it is, otherwise
      the freshly made value is stored and returned. */
  function Produce(r: Registry, n: string, made: Value): Got {
    if IsSet(r, n) then Got(r, Ok(r.instances[n]))
    else Got(r.(instances := r.instances[n := made]), Ok(made))
  }

  /** `extend($name, $handler)`: follows aliases (by `isset($this->aliases)`)
      and wraps both a set instance and a stored factory. */
  function Extend(rt: Runtime, r: Registry, n: string, handler: nat): Step
    requires Valid(r)
  {
    ExtendChain(rt, r, n, handler, |r.keys|)
  }

  function ExtendChain(rt: Runtime, r: Registry, n: string, handler: nat, fuel: nat): Step
    decreases fuel
  {
    if n !in r.keys then Step(r, Fail(NullReference(n)))
    else if n in r.aliases then
      if fuel == 0 then Step(r, Fail(AliasCycle(n))) else ExtendChain(rt, r, r.aliases[n], handler, fuel - 1)
    else
      var r1 := if IsSet(r, n) then r.(instances := r.instances[n := rt.call(handler, r.instances[n])]) else r;
      var r2 := if n in r1.closures then r1.(closures := r1.closures[n := Extended(r1.closures[n], handler)]) else r1;
      Step(r2, Pass)
  }

  /** The state the constructor leaves. */
  function Initial(): Registry {
    var a := Freeze(Instance(Empty, "container", Self).reg, "container");
    Freeze(Alias(a, InterfaceName, "container").reg, InterfaceName)
  }

  /** Every public operation that changes the container, as data. */
  datatype Op =
    | DestroyOp(name: string)
    | InstanceOp(name: string, value: Value)
    | ClosureOp(name: string, handler: nat)
    | BindOp(name: string, cls: Option<string>)
    | WireOp(name: string, cls: Option<string>)
    | AliasOp(name: string, origin: string)
    | FreezeOp(name: string)
    | GetOp(name: string)
    | ExtendOp(name: string, handler: nat)

  function Apply(rt: Runtime, r: Registry, op: Op): Registry
    requires Valid(r)
  {
    match op
    case DestroyOp(n) => Destroy(r, n).reg
    case InstanceOp(n, v) => Instance(r, n, v).reg
    case ClosureOp(n, h) => Closure(r, n, h).reg
    case BindOp(n, c) => Bind(r, n, c).reg
    case WireOp(n, c) => Wire(r, n, c).reg
    case AliasOp(n, o) => Alias(r, n, o).reg
    case FreezeOp(n) => Freeze(r, n)
    case GetOp(n) => Get(rt, r, n).reg
    case ExtendOp(n, h) => Extend(rt, r, n, h).reg
  }

  // ---------------------------------------------------------------------
  // Invariants every operation keeps

  lemma FreezeKeeps(r: Registry, n: string)
    requires Valid(r)
    ensures Valid(Freeze(r, n))
  {
    forall m ensures Consistent(Freeze(r, n), m) {
      assert Consistent(r, m);
    }
  }

  lemma RemoveKeeps(r: Registry, n: string)
    requires Valid(r)
    ensures Valid(Remove(r, n))
  {
    forall m ensures Consistent(Remove(r, n), m) {
      assert Consistent(r, m);
    }
  }

  /** Writing kind `k` for `n` with its payload keeps the invariant, once `n`
      has been removed from every table. */
  lemma RegisterKeeps(r: Registry, n: string, k: Kind, r': Registry)
    requires Valid(r) && n !in r.keys && n !in r.instances
    requires r'.keys == r.keys[n := k] && r'.frozen == r.frozen
    requires r'.instances == (if k == InstanceKind then r'.instances else r.instances)
    requires k == InstanceKind ==> r'.instances.Keys == r.instances.Keys + {n}
    requires r'.closures == (if k == ClosureKind then r'.closures else r.closures)
    requires k == ClosureKind ==> r'.closures.Keys == r.closures.Keys + {n}
    requires r'.aliases == (if k == AliasKind then r'.aliases else r.aliases)
    requires k == AliasKind ==> r'.aliases.Keys == r.aliases.Keys + {n}
    requires r'.bind.Keys == (if k == BindKind || k == WireKind then r.bind.Keys + {n} else r.bind.Keys)
    ensures Valid(r')
  {
    forall m ensures Consistent(r', m) {
      assert Consistent(r, m);
    }
  }

  lemma InstanceKeeps(r: Registry, n: string, v: Value)
    requires Valid(r)
    ensures Valid(Instance(r, n, v).reg)
  {
    if n !in r.frozen {
      RemoveKeeps(r, n);
      RegisterKeeps(Remove(r, n), n, InstanceKind, Instance(r, n, v).reg);
    }
  }

  lemma ClosureKeeps(r: Registry, n: string, h: nat)
    requires Valid(r)
    ensures Valid(Closure(r, n, h).reg)
  {
    if n !in r.frozen {
      RemoveKeeps(r, n);
      RegisterKeeps(Remove(r, n), n, ClosureKind, Closure(r, n, h).reg);
    }
  }

  lemma AliasKeeps(r: Registry, n: string, o: string)
    requires Valid(r)
    ensures Valid(Alias(r, n, o).reg)
  {
    if n !in r.frozen {
      RemoveKeeps(r, n);
      RegisterKeeps(Remove(r, n), n, AliasKind, Alias(r, n, o).reg);
    }
  }

  lemma BindKeeps(r: Registry, n: string, given: Option<string>)
    requires Valid(r)
    ensures Valid(Bind(r, n, given).reg) && Valid(Wire(r, n, given).reg)
  {
    BindOnlyKeeps(r, n, given);
    BindLeavesKind(r, n, given);
    WireKeeps(Bind(r, n, given), n);
  }

  lemma BindOnlyKeeps(r: Registry, n: string, given: Option<string>)
    requires Valid(r)
    ensures Valid(Bind(r, n, given).reg)
  {
    var cls := given.GetOr(n);
    if n !in r.frozen {
      var d := Remove(r, n);
      var b := d.(keys := d.keys[n := BindKind], bind := d.bind[n := cls]);
      RemoveKeeps(r, n);
      RegisterKeeps(d, n, BindKind, b);
      if n != cls {
        AliasKeeps(b, cls, n);
      }
    }
  }

  /** A `bind` that succeeds leaves `n` of kind `bind`. */
  lemma BindLeavesKind(r: Registry, n: string, given: Option<string>)
    ensures Bind(r, n, given).outcome.Pass? ==> n in Bind(r, n, given).reg.keys && Bind(r, n, given).reg.keys[n] == BindKind
  {
  }

  /** Recording the kind `wire` over a successful `bind` keeps the invariant. */
  lemma WireKeeps(s: Step, n: string)
    requires Valid(s.reg) && (s.outcome.Pass? ==> n in s.reg.keys && s.reg.keys[n] == BindKind)
    ensures s.outcome.Pass? ==> Valid(s.reg.(keys := s.reg.keys[n := WireKind]))
  {
    if s.outcome.Pass? {
      var w := s.reg.(keys := s.reg.keys[n := WireKind]);
      forall m ensures Consistent(w, m) {
        assert Consistent(s.reg, m);
      }
    }
  }

  lemma ProduceKeeps(r: Registry, n: string, made: Value)
    requires Valid(r) && n in r.keys && r.keys[n] != AliasKind
    ensures Valid(Produce(r, n, made).reg)
  {
    forall m ensures Consistent(Produce(r, n, made).reg, m) {
      assert Consistent(r, m);
    }
  }

  lemma {:induction false} GetChainKeeps(rt: Runtime, r: Registry, n: string, fuel: nat)
    requires Valid(r)
    ensures var g := GetChain(rt, r, n, fuel);
      Valid(g.reg) && g.reg.keys == r.keys && r.frozen <= g.reg.frozen
      && g.reg.closures == r.closures && g.reg.aliases == r.aliases && g.reg.bind == r.bind
    decreases fuel
  {
    if n in r.keys {
      assert Consistent(r, n);
      FreezeKeeps(r, n);
      var f := Freeze(r, n);
      match r.keys[n]
      case AliasKind =>
        if fuel > 0 {
          GetChainKeeps(rt, f, r.aliases[n], fuel - 1);
        }
      case InstanceKind =>
      case ClosureKind => ProduceKeeps(f, n, Run(rt, r.closures[n]));
      case BindKind => ProduceKeeps(f, n, rt.create(r.bind[n]));
      case WireKind => ProduceKeeps(f, n, rt.create(r.bind[n]));
    }
  }

  lemma {:induction false} ExtendChainKeeps(rt: Runtime, r: Registry, n: string, h: nat, fuel: nat)
    requires Valid(r)
    ensures var s := ExtendChain(rt, r, n, h, fuel);
      Valid(s.reg) && s.reg.keys == r.keys && s.reg.frozen == r.frozen
      && s.reg.aliases == r.aliases && s.reg.bind == r.bind
      && s.reg.closures.Keys == r.closures.Keys && s.reg.instances.Keys == r.instances.Keys
    decreases fuel
  {
    if n in r.keys {
      if n in r.aliases {
        if fuel > 0 {
          ExtendChainKeeps(rt, r, r.aliases[n], h, fuel - 1);
        }
      } else {
        var s := ExtendChain(rt, r, n, h, fuel);
        forall m ensures Consistent(s.reg, m) {
          assert Consistent(r, m);
        }
      }
    }
  }

  /** Every operation keeps the tables consistent with `keys`. */
  lemma ApplyKeepsValid(rt: Runtime, r: Registry, op: Op)
    requires Valid(r)
    ensures Valid(Apply(rt, r, op))
  {
    match op
    case DestroyOp(n) => RemoveKeeps(r, n);
    case InstanceOp(n, v) => InstanceKeeps(r, n, v);
    case ClosureOp(n, h) => ClosureKeeps(r, n, h);
    case BindOp(n, c) => BindKeeps(r, n, c);
    case WireOp(n, c) => BindKeeps(r, n, c);
    case AliasOp(n, o) => AliasKeeps(r, n, o);
    case FreezeOp(n) => FreezeKeeps(r, n);
    case GetOp(n) => GetChainKeeps(rt, r, n, |r.keys|);
    case ExtendOp(n, h) => ExtendChainKeeps(rt, r, n, h, |r.keys|);
  }

  /** No operation removes a name from `frozen`. */
  lemma FrozenNeverShrinks(rt: Runtime, r: Registry, op: Op)
    requires Valid(r)
    ensures r.frozen <= Apply(rt, r, op).frozen
  {
    match op
    case GetOp(n) => GetChainKeeps(rt, r, n, |r.keys|);
    case ExtendOp(n, h) => ExtendChainKeeps(rt, r, n, h, |r.keys|);
    case DestroyOp(n) =>
    case InstanceOp(n, v) =>
    case ClosureOp(n, h) =>
    case BindOp(n, c) => BindKeepsFrozen(r, n, c);
    case WireOp(n, c) => BindKeepsFrozen(r, n, c);
    case AliasOp(n, o) =>
    case FreezeOp(n) =>
  }

  /** `bind` writes no name into `frozen` and takes none out. */
  lemma BindKeepsFrozen(r: Registry, n: string, c: Option<string>)
    ensures Bind(r, n, c).reg.frozen == r.frozen
  {
  }

  // ---------------------------------------------------------------------
  // Registration, destruction and freezing

  /** After `instance(n, v)` on a name that is not frozen, `has(n)` holds
      and `get(n)` returns `v`, null included. */
  lemma InstanceThenGet(rt: Runtime, r: Registry, n: string, v: Value)
    requires Valid(r) && n !in r.frozen
    ensures var s := Instance(r, n, v);
      s.outcome == Pass && Valid(s.reg) && Has(s.reg, n) && Get(rt, s.reg, n).result == Ok(v)
  {
    InstanceKeeps(r, n, v);
    var s := Instance(r, n, v);
    assert s.reg.keys[n] == InstanceKind && s.reg.instances[n] == v;
    assert |s.reg.keys| > 0;
    assert Get(rt, s.reg, n) == Got(Freeze(s.reg, n), Ok(v));
  }

  /** `destroy` of a frozen name throws and changes nothing. */
  lemma DestroyFrozen(r: Registry, n: string)
    requires n in r.frozen
    ensures Destroy(r, n) == Step(r, Fail(CannotChange(n)))
  {
  }

  /** `destroy` of any other name removes it from every table but `frozen`
      and leaves every other name as it was. */
  lemma DestroyRemoves(r: Registry, n: string)
    requires n !in r.frozen
    ensures var s := Destroy(r, n);
      && s.outcome == Pass && !Has(s.reg, n) && s.reg.frozen == r.frozen
      && n !in s.reg.closures && n !in s.reg.instances && n !in s.reg.aliases && n !in s.reg.bind
      && (forall m :: m != n ==> (m in s.reg.keys <==> m in r.keys))
      && (forall m :: m != n && m in r.keys ==> s.reg.keys[m] == r.keys[m])
      && (forall m :: m != n ==> (m in s.reg.instances <==> m in r.instances))
      && (forall m :: m != n && m in r.instances ==> s.reg.instances[m] == r.instances[m])
      && (forall m :: m != n ==> (m in s.reg.closures <==> m in r.closures))
      && (forall m :: m != n && m in r.closures ==> s.reg.closures[m] == r.closures[m])
      && (forall m :: m != n ==> (m in s.reg.aliases <==> m in r.aliases))
      && (forall m :: m != n && m in r.aliases ==> s.reg.aliases[m] == r.aliases[m])
      && (forall m :: m != n ==> (m in s.reg.bind <==> m in r.bind))
      && (forall m :: m != n && m in r.bind ==> s.reg.bind[m] == r.bind[m])
  {
  }

  /** Once a name is frozen, every operation that would rebind or remove it
      throws `CannotChangeException` and changes nothing. */
  lemma FrozenRejectsChanges(r: Registry, n: string, v: Value, h: nat, c: Option<string>, o: string)
    requires n in r.frozen
    ensures Instance(r, n, v) == Step(r, Fail(CannotChange(n)))
    ensures Closure(r, n, h) == Step(r, Fail(CannotChange(n)))
    ensures Bind(r, n, c) == Step(r, Fail(CannotChange(n)))
    ensures Wire(r, n, c) == Step(r, Fail(CannotChange(n)))
    ensures Alias(r, n, o) == Step(r, Fail(CannotChange(n)))
    ensures Destroy(r, n) == Step(r, Fail(CannotChange(n)))
  {
  }

  /** `get` of an unregistered name throws and changes nothing. */
  lemma GetUnregistered(rt: Runtime, r: Registry, n: string)
    requires Valid(r) && !Has(r, n)
    ensures Get(rt, r, n) == Got(r, Err(NullReference(n)))
  {
  }

  /** A `get` of a registered name freezes it, so every later change of
      that name throws. */
  lemma GetFreezes(rt: Runtime, r: Registry, n: string, v: Value)
    requires Valid(r) && Has(r, n)
    ensures var g := Get(rt, r, n);
      n in g.reg.frozen && Instance(g.reg, n, v).outcome == Fail(CannotChange(n))
      && Destroy(g.reg, n).outcome == Fail(CannotChange(n))
  {
    assert Consistent(r, n);
    FreezeKeeps(r, n);
    var f := Freeze(r, n);
    if r.keys[n] == AliasKind && |r.keys| > 0 {
      GetChainKeeps(rt, f, r.aliases[n], |r.keys| - 1);
    }
  }

  // ---------------------------------------------------------------------
  // Aliases

  /** More fuel changes nothing once a chain has ended without a cycle. */
  lemma {:induction false} GetChainFuel(rt: Runtime, r: Registry, n: string, fuel: nat, more: nat)
    requires Valid(r) && fuel <= more
    requires !GetChain(rt, r, n, fuel).result.Err? || !GetChain(rt, r, n, fuel).result.error.AliasCycle?
    ensures GetChain(rt, r, n, more) == GetChain(rt, r, n, fuel)
    decreases fuel
  {
    if n in r.keys && r.keys[n] == AliasKind {
      assert Consistent(r, n);
      FreezeKeeps(r, n);
      GetChainFuel(rt, Freeze(r, n), r.aliases[n], fuel - 1, more - 1);
    }
  }

  /** `get` of an alias freezes the alias and is `get` of its origin. */
  lemma AliasGet(rt: Runtime, r: Registry, n: string)
    requires Valid(r) && Has(r, n) && r.keys[n] == AliasKind
    requires !Get(rt, r, n).result.Err? || !Get(rt, r, n).result.error.AliasCycle?
    ensures n in r.aliases && Valid(Freeze(r, n)) && Get(rt, r, n) == Get(rt, Freeze(r, n), r.aliases[n])
  {
    assert Consistent(r, n);
    FreezeKeeps(r, n);
    GetChainFuel(rt, Freeze(r, n), r.aliases[n], |r.keys| - 1, |r.keys|);
  }

  /** The name reached from `n` after `k` alias hops, while the chain
      stays on aliases. */
  function Hop(r: Registry, n: string, k: nat): string
    decreases k
  {
    if k == 0 || n !in r.aliases then n else Hop(r, r.aliases[n], k - 1)
  }

  predicate ChainOnAliases(r: Registry, n: string, k: nat) {
    forall i :: 0 <= i <= k ==> Hop(r, n, i) in r.aliases
  }

  lemma {:induction false} CycleOnAliases(rt: Runtime, r: Registry, n: string, fuel: nat)
    requires Valid(r)
    requires GetChain(rt, r, n, fuel).result.Err? && GetChain(rt, r, n, fuel).result.error.AliasCycle?
    ensures ChainOnAliases(r, n, fuel)
    decreases fuel
  {
    assert n in r.keys && r.keys[n] == AliasKind;
    assert Consistent(r, n);
    if fuel > 0 {
      var f := Freeze(r, n);
      FreezeKeeps(r, n);
      CycleOnAliases(rt, f, r.aliases[n], fuel - 1);
      forall i | 0 <= i <= fuel ensures Hop(r, n, i) in r.aliases {
        if i > 0 {
          HopFreeze(r, n, r.aliases[n], i - 1);
          assert Hop(r, n, i) == Hop(f, r.aliases[n], i - 1);
        }
      }
    }
  }

  lemma {:induction false} HopFreeze(r: Registry, n: string, m: string, k: nat)
    requires Valid(r)
    ensures Hop(Freeze(r, n), m, k) == Hop(r, m, k)
    decreases k
  {
    if k > 0 && m in r.aliases {
      HopFreeze(r, n, r.aliases[m], k - 1);
    }
  }

  /** When `get` reports an alias cycle, the chain of aliases from `n`
      really visits some name twice, so PHP's recursion would never end. */
  lemma AliasCycleRevisits(rt: Runtime, r: Registry, n: string)
    requires Valid(r)
    requires Get(rt, r, n).result.Err? && Get(rt, r, n).result.error.AliasCycle?
    ensures exists i, j :: 0 <= i < j <= |r.keys| && Hop(r, n, i) == Hop(r, n, j)
  {
    var k := |r.keys|;
    CycleOnAliases(rt, r, n, k);
    var hops := seq(k + 1, i requires 0 <= i <= k => Hop(r, n, i));
    if forall i, j :: 0 <= i < j <= k ==> Hop(r, n, i) != Hop(r, n, j) {
      assert forall i, j :: 0 <= i < j < |hops| ==> hops[i] != hops[j];
      DistinctSize(hops);
      var names := set m | m in hops;
      assert names <= r.keys.Keys by {
        forall m | m in names ensures m in r.keys {
          assert Consistent(r, m);
        }
      }
      assert |names| <= |r.keys.Keys| by { SubsetSize(names, r.keys.Keys); }
      assert false;
    }
  }

  /** A sequence without repetitions has as many elements as its set. */
  lemma {:induction false} DistinctSize<T>(s: seq<T>)
    requires forall i, j :: 0 <= i < j < |s| ==> s[i] != s[j]
    ensures |set x | x in s| == |s|
  {
    if |s| > 0 {
      var t := s[..|s| - 1];
      DistinctSize(t);
      assert (set x | x in s) == (set x | x in t) + {s[|s| - 1]};
      assert s[|s| - 1] !in t;
    }
  }

  lemma SubsetSize<T>(a: set<T>, b: set<T>)
    requires a <= b
    ensures |a| <= |b|
  {
    assert b == a + (b - a);
  }

  // ---------------------------------------------------------------------
  // Caching

  /** For factory kinds, a non-null product is cached: the next `get`
      returns it again and changes nothing (the factory is not called). */
  lemma GetCaches(rt: Runtime, r: Registry, n: string)
    requires Valid(r) && Has(r, n)
    requires r.keys[n] == ClosureKind || r.keys[n] == BindKind || r.keys[n] == WireKind
    requires Get(rt, r, n).result.Ok? && Get(rt, r, n).result.value != Null
    ensures var g := Get(rt, r, n);
      Valid(g.reg) && Get(rt, g.reg, n) == Got(g.reg, g.result)
  {
    var g := Get(rt, r, n);
    GetChainKeeps(rt, r, n, |r.keys|);
    assert IsSet(g.reg, n);
  }

  /** A set instance is returned without calling the factory: only the
      name is frozen. */
  lemma GetSetInstance(rt: Runtime, r: Registry, n: string)
    requires Valid(r) && Has(r, n) && r.keys[n] != AliasKind && IsSet(r, n)
    ensures Get(rt, r, n) == Got(Freeze(r, n), Ok(r.instances[n]))
  {
  }

  /** A factory whose product is null is called again by the next `get`,
      because `isset` does not see a null instance. */
  lemma NullProductNotCached(rt: Runtime, r: Registry, n: string)
    requires Valid(r) && n in r.closures && !IsSet(r, n)
    requires Run(rt, r.closures[n]) == Null
    ensures var g := Get(rt, r, n);
      Valid(g.reg) && !IsSet(g.reg, n) && Get(rt, g.reg, n).result == Ok(Null)
  {
    assert Consistent(r, n);
    GetChainKeeps(rt, r, n, |r.keys|);
  }

  // ---------------------------------------------------------------------
  // bind and wire

  /** `bind(n, c)` with `n != c` binds `n` to class `c` and makes `c` an
      alias of `n`; both names then resolve to a new `c` object. */
  lemma BindWithClass(rt: Runtime, r: Registry, n: string, c: string)
    requires Valid(r) && n != c && n !in r.frozen && c !in r.frozen
    ensures var s := Bind(r, n, Some(c));
      && s.outcome == Pass && Valid(s.reg)
      && s.reg.keys[n] == BindKind && s.reg.bind[n] == c
      && s.reg.keys[c] == AliasKind && s.reg.aliases[c] == n
      && Get(rt, s.reg, n).result == Ok(rt.create(c))
      && Get(rt, s.reg, c).result == Ok(rt.create(c))
  {
    BindOnlyKeeps(r, n, Some(c));
    BindWithClassTables(r, n, c);
    GetBoundPair(rt, Bind(r, n, Some(c)).reg, n, c);
  }

  lemma BindWithClassTables(r: Registry, n: string, c: string)
    requires n != c && n !in r.frozen && c !in r.frozen
    ensures var s := Bind(r, n, Some(c));
      && s.outcome == Pass
      && s.reg.keys[n] == BindKind && s.reg.bind[n] == c && n !in s.reg.instances
      && s.reg.keys[c] == AliasKind && s.reg.aliases[c] == n
  {
  }

  /** A name bound to class `c`, with no instance yet, and `c` aliased to it:
      both resolve to a new `c` object. */
  lemma GetBoundPair(rt: Runtime, t: Registry, n: string, c: string)
    requires Valid(t) && n != c
    requires n in t.keys && t.keys[n] == BindKind && n in t.bind && t.bind[n] == c && n !in t.instances
    requires c in t.keys && t.keys[c] == AliasKind && c in t.aliases && t.aliases[c] == n
    ensures Get(rt, t, n).result == Ok(rt.create(c))
    ensures Get(rt, t, c).result == Ok(rt.create(c))
  {
    assert |t.keys| >= 2 by {
      assert {n, c} <= t.keys.Keys;
      assert |{n, c}| == 2;
      SubsetSize({n, c}, t.keys.Keys);
    }
    assert Consistent(t, n) && Consistent(t, c);
    var f := Freeze(t, c);
    FreezeKeeps(t, c);
    assert Get(rt, t, c) == GetChain(rt, f, n, |t.keys| - 1);
    assert f.keys[n] == BindKind && f.bind[n] == c && !IsSet(f, n);
  }

  /** `bind(n)` binds `n` to itself and writes no alias. */
  lemma BindSelf(rt: Runtime, r: Registry, n: string)
    requires Valid(r) && n !in r.frozen
    ensures var s := Bind(r, n, None);
      && s.outcome == Pass && Valid(s.reg) && s.reg.keys[n] == BindKind && s.reg.bind[n] == n
      && n !in s.reg.aliases && (forall m :: m != n ==> (m in s.reg.keys <==> m in r.keys))
      && Get(rt, s.reg, n).result == Ok(rt.create(n))
  {
    BindOnlyKeeps(r, n, None);
    BindSelfTables(r, n);
    GetBound(rt, Bind(r, n, None).reg, n);
  }

  lemma BindSelfTables(r: Registry, n: string)
    requires n !in r.frozen
    ensures var s := Bind(r, n, None);
      && s.outcome == Pass && s.reg.keys[n] == BindKind && s.reg.bind[n] == n
      && n !in s.reg.aliases && n !in s.reg.instances
      && (forall m :: m != n ==> (m in s.reg.keys <==> m in r.keys))
  {
  }

  /** A name bound to a class, with no instance yet, resolves to a new
      object of that class. */
  lemma GetBound(rt: Runtime, t: Registry, n: string)
    requires Valid(t) && n in t.keys && t.keys[n] == BindKind && n in t.bind && n !in t.instances
    ensures Get(rt, t, n).result == Ok(rt.create(t.bind[n]))
  {
    assert |t.keys| > 0;
    assert !IsSet(Freeze(t, n), n);
  }

  /** `bind(n, c)` where `c` is frozen leaves `n` bound and throws for `c`. */
  lemma BindFrozenClass(r: Registry, n: string, c: string)
    requires n != c && n !in r.frozen && c in r.frozen
    ensures var s := Bind(r, n, Some(c));
      s.outcome == Fail(CannotChange(c)) && s.reg.keys[n] == BindKind && s.reg.bind[n] == c
  {
  }

  /** `get` cannot tell the kinds `bind` and `wire` apart: on two registries
      that differ only in that kind at `n`, every name resolves to the same
      value, and the registries left behind still differ only there. */
  lemma {:induction false} GetChainBindWire(rt: Runtime, a: Registry, n: string, m: string, fuel: nat)
    requires Valid(a) && Valid(a.(keys := a.keys[n := WireKind]))
    requires n in a.keys && a.keys[n] == BindKind
    ensures var ga := GetChain(rt, a, m, fuel); var gw := GetChain(rt, a.(keys := a.keys[n := WireKind]), m, fuel);
      && gw.result == ga.result
      && gw.reg == ga.reg.(keys := ga.reg.keys[n := WireKind])
    decreases fuel
  {
    var w := a.(keys := a.keys[n := WireKind]);
    if m in a.keys {
      assert Consistent(a, m) && Consistent(w, m);
      if a.keys[m] == AliasKind {
        if fuel > 0 {
          FreezeKeeps(a, m);
          FreezeKeeps(w, m);
          assert Freeze(w, m) == Freeze(a, m).(keys := Freeze(a, m).keys[n := WireKind]);
          GetChainBindWire(rt, Freeze(a, m), n, a.aliases[m], fuel - 1);
        }
      } else {
        GetOneBindWire(rt, a, n, m, fuel);
      }
    }
  }

  /** The non-alias step of `GetChainBindWire`. */
  lemma GetOneBindWire(rt: Runtime, a: Registry, n: string, m: string, fuel: nat)
    requires Valid(a) && Valid(a.(keys := a.keys[n := WireKind]))
    requires n in a.keys && a.keys[n] == BindKind
    requires m in a.keys && a.keys[m] != AliasKind
    ensures var ga := GetChain(rt, a, m, fuel); var gw := GetChain(rt, a.(keys := a.keys[n := WireKind]), m, fuel);
      && gw.result == ga.result
      && gw.reg == ga.reg.(keys := ga.reg.keys[n := WireKind])
  {
    var w := a.(keys := a.keys[n := WireKind]);
    assert Consistent(a, m) && Consistent(w, m);
    var v := if a.keys[m] == InstanceKind then Null
      else if a.keys[m] == ClosureKind then Run(rt, a.closures[m])
      else rt.create(a.bind[m]);
    if a.keys[m] != InstanceKind {
      assert GetChain(rt, a, m, fuel) == Produce(Freeze(a, m), m, v);
      assert GetChain(rt, w, m, fuel) == Produce(Freeze(w, m), m, v);
    }
  }

  /** `wire` behaves as `bind`: it succeeds and fails alike, and after a
      successful call every name resolves to the same value either way. */
  lemma WireIsBind(rt: Runtime, r: Registry, n: string, c: Option<string>, m: string)
    requires Valid(r)
    ensures Wire(r, n, c).outcome == Bind(r, n, c).outcome
    ensures Bind(r, n, c).outcome.Pass? ==>
      && Valid(Bind(r, n, c).reg) && Valid(Wire(r, n, c).reg)
      && Get(rt, Wire(r, n, c).reg, m).result == Get(rt, Bind(r, n, c).reg, m).result
  {
    BindKeeps(r, n, c);
    var b := Bind(r, n, c);
    if b.outcome.Pass? {
      BindLeavesKind(r, n, c);
      assert Wire(r, n, c).reg == b.reg.(keys := b.reg.keys[n := WireKind]);
      assert |Wire(r, n, c).reg.keys| == |b.reg.keys| by {
        assert Wire(r, n, c).reg.keys.Keys == b.reg.keys.Keys;
      }
      GetChainBindWire(rt, b.reg, n, m, |b.reg.keys|);
    }
  }

  // ---------------------------------------------------------------------
  // extend

  /** `extend` of an unregistered name throws and changes nothing; on a
      plain instance it replaces the value by the handler's result. */
  lemma ExtendInstance(rt: Runtime, r: Registry, n: string, h: nat)
    requires Valid(r)
    ensures !Has(r, n) ==> Extend(rt, r, n, h) == Step(r, Fail(NullReference(n)))
    ensures Has(r, n) && r.keys[n] == InstanceKind && IsSet(r, n) ==>
      Extend(rt, r, n, h) == Step(r.(instances := r.instances[n := rt.call(h, r.instances[n])]), Pass)
  {
    assert Consistent(r, n);
    if n in r.keys {
      assert |r.keys| > 0;
    }
  }

  /** After `extend` of a factory that has not been called, `get` yields
      the handler applied to the factory's product. */
  lemma ExtendThenGet(rt: Runtime, r: Registry, n: string, h: nat)
    requires Valid(r) && n in r.closures && !IsSet(r, n)
    ensures var s := Extend(rt, r, n, h);
      s.outcome == Pass && Valid(s.reg)
      && Get(rt, s.reg, n).result == Ok(rt.call(h, Run(rt, r.closures[n])))
  {
    assert Consistent(r, n);
    assert |r.keys| > 0;
    ExtendChainKeeps(rt, r, n, h, |r.keys|);
  }

  // ---------------------------------------------------------------------
  // Construction

  /** After construction `container` holds the container itself,
      `ContainerInterface` is an alias of it, and both names are frozen. */
  lemma InitialState(rt: Runtime)
    ensures var r := Initial();
      && Valid(r) && r.frozen == {"container", InterfaceName}
      && r.keys["container"] == InstanceKind && r.keys[InterfaceName] == AliasKind
      && r.aliases[InterfaceName] == "container"
      && Get(rt, r, InterfaceName).result == Ok(Self)
      && Get(rt, r, "container").result == Ok(Self)
  {
    InitialTables();
    InitialValid();
    InitialGets(rt);
  }

  /** The tables the constructor leaves, written out. */
  lemma InitialTables()
    ensures var r := Initial();
      && r.keys == map["container" := InstanceKind, InterfaceName := AliasKind]
      && r.instances == map["container" := Self]
      && r.aliases == map[InterfaceName := "container"]
      && r.closures == map[] && r.bind == map[]
      && r.frozen == {"container", InterfaceName}
  {
    assert "container" != InterfaceName;
  }

  lemma InitialValid()
    ensures Valid(Initial())
  {
    InitialTables();
    var r := Initial();
    assert "container" != InterfaceName;
    forall m ensures Consistent(r, m) {
      if m != "container" && m != InterfaceName {
        assert m !in r.keys && m !in r.instances && m !in r.aliases;
      }
    }
  }

  lemma InitialGets(rt: Runtime)
    ensures Valid(Initial())
    ensures Get(rt, Initial(), InterfaceName).result == Ok(Self)
    ensures Get(rt, Initial(), "container").result == Ok(Self)
  {
    InitialTables();
    InitialValid();
    var r := Initial();
    GetAliasInstance(rt, r, InterfaceName);
    GetChainInstance(rt, r, "container", |r.keys|);
  }

  /** Getting an alias of a name of kind `instance` yields that instance. */
  lemma GetAliasInstance(rt: Runtime, t: Registry, a: string)
    requires Valid(t) && a in t.keys && t.keys[a] == AliasKind
    requires a in t.aliases && t.aliases[a] in t.keys && t.keys[t.aliases[a]] == InstanceKind
    ensures t.aliases[a] in t.instances && Get(rt, t, a).result == Ok(t.instances[t.aliases[a]])
  {
    assert |t.keys| > 0 by {
      assert a in t.keys.Keys;
    }
    var f := Freeze(t, a);
    FreezeKeeps(t, a);
    assert Get(rt, t, a) == GetChain(rt, f, t.aliases[a], |t.keys| - 1);
    GetChainInstance(rt, f, t.aliases[a], |t.keys| - 1);
  }

  /** A name of kind `instance` yields its instance, whatever the hop budget. */
  lemma GetChainInstance(rt: Runtime, t: Registry, n: string, fuel: nat)
    requires Valid(t) && n in t.keys && t.keys[n] == InstanceKind
    ensures n in t.instances && GetChain(rt, t, n, fuel).result == Ok(t.instances[n])
  {
    assert Consistent(t, n);
  }
}
