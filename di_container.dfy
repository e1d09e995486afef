/** The container as an object whose methods update its tables in place.
    Every method is proved to leave the state, and to return the outcome,
    that the matching function of DIRegistry prescribes, so the lemmas
    proved there hold of the object. */
module DIContainer {
  import opened Wrappers
  import R = DIRegistry
  import P = DIParameters
  import Php

  class Container {
    var keys: map<string, R.Kind>
    var closures: map<string, R.Factory>
    var instances: map<string, R.Value>
    var aliases: map<string, string>
    var bind: map<string, string>
    var frozen: set<string>

    /** The tables as one value. */
    function Model(): R.Registry
      reads this
    {
      R.Registry(keys, closures, instances, aliases, bind, frozen)
    }

    ghost predicate Valid()
      reads this
    {
      R.Valid(Model())
    }

    /** Registers the container under `container` and `ContainerInterface`
        and freezes both names. */
    constructor()
      ensures Valid() && Model() == R.Initial()
    {
      keys, closures, instances, aliases, bind, frozen := map[], map[], map[], map[], map[], {};
      new;
      assert R.Valid(Model()) by {
        forall m ensures R.Consistent(Model(), m) { }
      }
      var o := Instance("container", R.Self);
      Freeze("container");
      o := Alias(R.InterfaceName, "container");
      Freeze(R.InterfaceName);
    }

    /** `has($name)`. */
    function Has(name: string): (b: bool)
      reads this
      ensures b == R.Has(Model(), name)
    {
      name in keys
    }

    method Destroy(name: string) returns (o: Outcome<R.Error>)
      requires Valid()
      modifies this
      ensures Valid()
      ensures R.Step(Model(), o) == R.Destroy(old(Model()), name)
    {
      R.RemoveKeeps(Model(), name);
      if name in frozen {
        return Fail(R.CannotChange(name));
      }
      keys := keys - {name};
      closures := closures - {name};
      instances := instances - {name};
      aliases := aliases - {name};
      bind := bind - {name};
      return Pass;
    }

    method Freeze(name: string)
      requires Valid()
      modifies this
      ensures Valid()
      ensures Model() == R.Freeze(old(Model()), name)
    {
      R.FreezeKeeps(Model(), name);
      frozen := frozen + {name};
    }

    method Instance(name: string, value: R.Value) returns (o: Outcome<R.Error>)
      requires Valid()
      modifies this
      ensures Valid()
      ensures R.Step(Model(), o) == R.Instance(old(Model()), name, value)
    {
      R.InstanceKeeps(Model(), name, value);
      o := Destroy(name);
      if o.Fail? {
        return;
      }
      keys := keys[name := R.InstanceKind];
      instances := instances[name := value];
    }

    method Closure(name: string, handler: nat) returns (o: Outcome<R.Error>)
      requires Valid()
      modifies this
      ensures Valid()
      ensures R.Step(Model(), o) == R.Closure(old(Model()), name, handler)
    {
      R.ClosureKeeps(Model(), name, handler);
      o := Destroy(name);
      if o.Fail? {
        return;
      }
      keys := keys[name := R.ClosureKind];
      closures := closures[name := R.Handler(handler)];
    }

    method Alias(name: string, origin: string) returns (o: Outcome<R.Error>)
      requires Valid()
      modifies this
      ensures Valid()
      ensures R.Step(Model(), o) == R.Alias(old(Model()), name, origin)
    {
      R.AliasKeeps(Model(), name, origin);
      o := Destroy(name);
      if o.Fail? {
        return;
      }
      keys := keys[name := R.AliasKind];
      aliases := aliases[name := origin];
    }

    method Bind(name: string, given: Option<string>) returns (o: Outcome<R.Error>)
      requires Valid()
      modifies this
      ensures Valid()
      ensures R.Step(Model(), o) == R.Bind(old(Model()), name, given)
    {
      R.BindKeeps(Model(), name, given);
      var cls := given.GetOr(name);
      o := Destroy(name);
      if o.Fail? {
        return;
      }
      ghost var d := Model();
      keys := keys[name := R.BindKind];
      bind := bind[name := cls];
      assert Model() == d.(keys := d.keys[name := R.BindKind], bind := d.bind[name := cls]);
      if name != cls {
        R.RegisterKeeps(d, name, R.BindKind, Model());
        o := Alias(cls, name);
      }
    }

    method Wire(name: string, given: Option<string>) returns (o: Outcome<R.Error>)
      requires Valid()
      modifies this
      ensures Valid()
      ensures R.Step(Model(), o) == R.Wire(old(Model()), name, given)
    {
      R.BindKeeps(Model(), name, given);
      o := Bind(name, given);
      if o.Fail? {
        return;
      }
      keys := keys[name := R.WireKind];
    }

    /** `get($name)`: the alias chain is followed by a loop, freezing every
        name on it; at most as many hops are taken as there are names. */
    method Get(rt: R.Runtime, name: string) returns (res: Result<R.Value, R.Error>)
      requires Valid()
      modifies this
      ensures Valid()
      ensures R.Got(Model(), res) == R.Get(rt, old(Model()), name)
    {
      var cur := name;
      var fuel: nat := |keys|;
      while true
        invariant Valid()
        invariant R.GetChain(rt, Model(), cur, fuel) == R.Get(rt, old(Model()), name)
        decreases fuel
      {
        if cur !in keys {
          return Err(R.NullReference(cur));
        }
        assert R.Consistent(Model(), cur);
        Freeze(cur);
        var key := keys[cur];
        if key == R.AliasKind {
          if fuel == 0 {
            return Err(R.AliasCycle(cur));
          }
          cur, fuel := aliases[cur], fuel - 1;
        } else {
          ghost var f := Model();
          if !(cur in instances && instances[cur] != R.Null) {
            if key == R.ClosureKind {
              var made := R.Run(rt, closures[cur]);
              R.ProduceKeeps(f, cur, made);
              instances := instances[cur := made];
            } else if key == R.BindKind || key == R.WireKind {
              var made := rt.create(bind[cur]);
              R.ProduceKeeps(f, cur, made);
              instances := instances[cur := made];
            }
          }
          return Ok(instances[cur]);
        }
      }
    }

    /** `extend($name, $handler)`, following the alias chain by a loop. */
    method Extend(rt: R.Runtime, name: string, handler: nat) returns (o: Outcome<R.Error>)
      requires Valid()
      modifies this
      ensures Valid()
      ensures R.Step(Model(), o) == R.Extend(rt, old(Model()), name, handler)
    {
      R.ExtendChainKeeps(rt, Model(), name, handler, |keys|);
      var cur := name;
      var fuel: nat := |keys|;
      while true
        invariant Model() == old(Model())
        invariant R.ExtendChain(rt, Model(), cur, handler, fuel) == R.Extend(rt, old(Model()), name, handler)
        decreases fuel
      {
        if cur !in keys {
          return Fail(R.NullReference(cur));
        }
        if cur in aliases {
          if fuel == 0 {
            return Fail(R.AliasCycle(cur));
          }
          cur, fuel := aliases[cur], fuel - 1;
        } else {
          if cur in instances && instances[cur] != R.Null {
            instances := instances[cur := rt.call(handler, instances[cur])];
          }
          if cur in closures {
            closures := closures[cur := R.Extended(closures[cur], handler)];
          }
          return Pass;
        }
      }
    }

    /** `getOnlySeqArray($array)`: the values under integer keys, in order. */
    method GetOnlySeqArray(entries: P.Arguments) returns (items: seq<R.Value>)
      ensures items == Php.IntKeyed(entries)
    {
      items := [];
      for i := 0 to |entries|
        invariant items == Php.IntKeyed(entries[..i])
      {
        assert entries[..i + 1] == entries[..i] + [entries[i]];
        Php.IntKeyedAppend(entries[..i], [entries[i]]);
        Php.IntKeyedSingle(entries[i].0, entries[i].1);
        if entries[i].0.IntKey? {
          items := items + [entries[i].1];
        }
      }
      assert entries[..|entries|] == entries;
    }

    /** `getParameters($reflectionFunction, $arguments)` over the parameters
        reflection would list. */
    method GetParameters(rt: R.Runtime, params: seq<P.Param>, arguments: P.Arguments)
      returns (res: Result<seq<R.Value>, R.Error>)
      requires Valid()
      modifies this
      ensures Valid()
      ensures P.Resolved(Model(), res) == P.Parameters(rt, old(Model()), params, arguments)
    {
      var toReturn: seq<R.Value> := [];
      var positional := GetOnlySeqArray(arguments);
      for i := 0 to |params|
        invariant Valid()
        invariant P.Resolve(rt, Model(), params[i..], arguments, positional, toReturn)
          == P.Parameters(rt, old(Model()), params, arguments)
      {
        var p := params[i];
        var named := Php.Lookup(arguments, Php.StrKey(p.name));
        if named.Some? && named.value != R.Null {
          toReturn := toReturn + [named.value];
        } else if p.hint.Some? {
          var got := Get(rt, p.hint.value);
          if got.Err? {
            return Err(got.error);
          }
          toReturn := toReturn + [got.value];
        } else if |arguments| > 0 {
          if |positional| == 0 {
            toReturn := toReturn + [R.Null];
          } else {
            toReturn := toReturn + [positional[0]];
            positional := positional[1..];
          }
        } else {
          return Err(R.ParameterUnresolved);
        }
        assert params[i..][1..] == params[i + 1..];
      }
      return Ok(toReturn + positional);
    }
  }
}
