/** The restifier: a registry of transformers keyed by class name, a parser
    for include lists, and the conversion of a resource (or a collection of
    resources) into an entity array. What PHP decides at run time about
    arbitrary values (`instanceof`, calling a callable, `method_exists`) is
    supplied by a `Runtime`. */
module Restifier {
  import opened Wrappers
  import opened Php

  /** A value given to `restify`: null, an object of some class, or any
      other value. */
  datatype Resource = NullResource | Object(cls: string, id: nat) | NonObject(id: nat)

  /** A registered transformer callable. */
  type Transformer = nat

  /** The transformers, by name, in registration order. */
  type Table = seq<(string, Transformer)>

  /** The condition of an include, as PHP sees it: a value tested for
      truthiness, or a callable to be called with the resource. */
  datatype Cond = CNull | CBool(b: bool) | CInt(i: int) | CStr(s: string) | CArray(size: nat) | CCallable(id: nat)

  /** An entry of the includes array: under an integer key the value is the
      include itself; under a string key the value is its condition. */
  datatype Include = Listed(name: string) | Keyed(name: string, cond: Cond)

  /** Parsed includes: each key with the parameters given for it. */
  type Parsed = seq<(string, seq<string>)>

  /** An entity array built by transformers; its values are opaque. */
  type Entity = seq<(Key, nat)>

  datatype Error =
    | NotFoundTransformer(message: string)  // NotFoundTransformerException
    | ConditionDiverges                      // a callable condition still callable after the call budget

  datatype Runtime = Runtime(
    instanceOf: (Resource, string) -> bool,                                 // `$resource instanceof $name`
    invoke: (nat, Resource) -> Cond,                                        // `call_user_func($condition, $resource)`
    transform: (Transformer, Table, Resource, Parsed) -> Entity,            // `call_user_func($transformer, ...)`
    hasMethod: (Transformer, string) -> bool,                               // `is_object && method_exists`
    callMethod: (Transformer, string, Table, Resource, seq<string>) -> Entity)  // `$transformer->{$key}(...)`

  // ---------------------------------------------------------------------
  // Registration

  /** The table after `addTransformer` of each entry in turn. */
  function Register(t: Table, entries: seq<(string, Transformer)>): Table
    decreases |entries|
  {
    if |entries| == 0 then t
    else Store(Register(t, entries[..|entries| - 1]), entries[|entries| - 1].0, entries[|entries| - 1].1)
  }

  /** After registration each name holds the transformer given for it last,
      and every other name what it held before. */
  lemma {:induction false} RegisterLookup(t: Table, entries: seq<(string, Transformer)>, name: string)
    ensures Lookup(Register(t, entries), name)
      == if LastValue(entries, name).Some? then LastValue(entries, name) else Lookup(t, name)
    decreases |entries|
  {
    if |entries| > 0 {
      RegisterLookup(t, entries[..|entries| - 1], name);
    }
  }

  // ---------------------------------------------------------------------
  // findTransformer

  /** The first registered transformer whose name the resource is an
      instance of. */
  function FirstInstance(rt: Runtime, t: Table, res: Resource): (r: Option<Transformer>)
    ensures r.Some? ==> exists i :: 0 <= i < |t| && rt.instanceOf(res, t[i].0) && t[i].1 == r.value
                         && forall j :: 0 <= j < i ==> !rt.instanceOf(res, t[j].0)
    ensures r.None? ==> forall i :: 0 <= i < |t| ==> !rt.instanceOf(res, t[i].0)
  {
    if |t| == 0 then None
    else if rt.instanceOf(res, t[0].0) then Some(t[0].1)
    else
      var r := FirstInstance(rt, t[1..], res);
      assert forall i :: 1 <= i < |t| ==> t[i] == t[1..][i - 1];
      if r.Some? then
        var i :| 0 <= i < |t[1..]| && rt.instanceOf(res, t[1..][i].0) && t[1..][i].1 == r.value
                 && forall j :: 0 <= j < i ==> !rt.instanceOf(res, t[1..][j].0);
        assert t[i + 1] == t[1..][i];
        assert forall j :: 0 <= j < i + 1 ==> !rt.instanceOf(res, t[j].0) by {
          forall j | 0 <= j < i + 1 ensures !rt.instanceOf(res, t[j].0) {
            if j > 0 { assert t[j] == t[1..][j - 1]; }
          }
        }
        r
      else r
  }

  /** `findTransformer($resource)`. */
  function TransformerFor(rt: Runtime, t: Table, res: Resource): Result<Transformer, Error> {
    if !res.Object? then Err(NotFoundTransformer("resource is not an object."))
    else match Lookup(t, res.cls)
      case Some(tr) => Ok(tr)
      case None =>
        match FirstInstance(rt, t, res)
        case Some(tr) => Ok(tr)
        case None => Err(NotFoundTransformer("cannot find the transformer named " + res.cls + "."))
  }

  /** The transformer registered under the object's own class wins; else the
      first, in registration order, of whose name it is an instance; an
      object matching none, and a non-object, are errors. */
  lemma TransformerForCases(rt: Runtime, t: Table, res: Resource)
    ensures res.Object? && Lookup(t, res.cls).Some? ==> TransformerFor(rt, t, res) == Ok(Lookup(t, res.cls).value)
    ensures res.Object? && Lookup(t, res.cls).None? && TransformerFor(rt, t, res).Ok? ==>
      exists i :: 0 <= i < |t| && rt.instanceOf(res, t[i].0) && t[i].1 == TransformerFor(rt, t, res).value
                  && forall j :: 0 <= j < i ==> !rt.instanceOf(res, t[j].0)
    ensures res.Object? && TransformerFor(rt, t, res).Err? <==>
      res.Object? && Lookup(t, res.cls).None? && forall i :: 0 <= i < |t| ==> !rt.instanceOf(res, t[i].0)
    ensures res.Object? && TransformerFor(rt, t, res).Err? ==>
      TransformerFor(rt, t, res).error == NotFoundTransformer("cannot find the transformer named " + res.cls + ".")
    ensures !res.Object? ==> TransformerFor(rt, t, res) == Err(NotFoundTransformer("resource is not an object."))
  {
  }

  // ---------------------------------------------------------------------
  // parseIncludes

  /** PHP truthiness of a settled condition. */
  predicate Holds(c: Cond) {
    match c
    case CNull => false
    case CBool(b) => b
    case CInt(i) => i != 0
    case CStr(s) => Truthy(s)
    case CArray(size) => size > 0
    case CCallable(_) => true
  }

  /** `while (is_callable($condition)) $condition = call_user_func(...)`, with
      at most `fuel` calls. */
  function Settle(rt: Runtime, c: Cond, res: Resource, fuel: nat): (r: Result<Cond, Error>)
    ensures r.Ok? ==> !r.value.CCallable?
    decreases fuel
  {
    if !c.CCallable? then Ok(c)
    else if fuel == 0 then Err(ConditionDiverges)
    else Settle(rt, rt.invoke(c.id, res), res, fuel - 1)
  }

  /** A larger call budget changes nothing once a condition has settled. */
  lemma {:induction false} SettleFuel(rt: Runtime, c: Cond, res: Resource, fuel: nat, more: nat)
    requires fuel <= more && Settle(rt, c, res, fuel).Ok?
    ensures Settle(rt, c, res, more) == Settle(rt, c, res, fuel)
    decreases fuel
  {
    if c.CCallable? {
      SettleFuel(rt, rt.invoke(c.id, res), res, fuel - 1, more - 1);
    }
  }

  function NameOf(e: Include): string {
    match e
    case Listed(n) => n
    case Keyed(n, _) => n
  }

  /** An integer-keyed entry has the condition `true`. */
  function CondOf(e: Include): Cond {
    match e
    case Listed(_) => CBool(true)
    case Keyed(_, c) => c
  }

  /** The names of the includes whose condition settles truthy, in order. */
  function Survivors(rt: Runtime, includes: seq<Include>, res: Resource, fuel: nat): Result<seq<string>, Error>
    decreases |includes|
  {
    if |includes| == 0 then Ok([])
    else
      var last := includes[|includes| - 1];
      match Survivors(rt, includes[..|includes| - 1], res, fuel)
      case Err(e) => Err(e)
      case Ok(names) =>
        match Settle(rt, CondOf(last), res, fuel)
        case Err(e) => Err(e)
        case Ok(c) => Ok(names + if Holds(c) then [NameOf(last)] else [])
  }

  /** The key of an include: the part before its first `.`. */
  function KeyOf(name: string): string {
    match IndexOf(name, '.')
    case None => name
    case Some(i) => name[..i]
  }

  /** The parameter of an include: the part after its first `.`, if any. */
  function ParamOf(name: string): Option<string> {
    match IndexOf(name, '.')
    case None => None
    case Some(i) => Some(name[i + 1..])
  }

  /** Key and parameter are `explode('.', $include, 2)`: the first piece, and
      the remaining pieces joined back together. */
  lemma KeyParamExplode(name: string)
    ensures ParamOf(name).None? <==> |Split(name, '.')| == 1
    ensures KeyOf(name) == Split(name, '.')[0]
    ensures ParamOf(name).Some? ==> ParamOf(name).value == Join(Split(name, '.')[1..], '.')
  {
    match IndexOf(name, '.')
    case None =>
    case Some(i) =>
      var tail := Split(name[i + 1..], '.');
      assert Split(name, '.') == [name[..i]] + tail;
      assert Split(name, '.')[1..] == tail;
      JoinSplit(name[i + 1..], '.');
  }

  /** One surviving include: its key is created, and a truthy parameter is
      appended to the key's list. */
  function AddInclude(p: Parsed, name: string): Parsed {
    var k := KeyOf(name);
    var p1 := if Lookup(p, k).Some? then p else Store(p, k, []);
    var param := ParamOf(name);
    if param.Some? && Truthy(param.value) then Store(p1, k, Lookup(p1, k).value + [param.value]) else p1
  }

  function Group(names: seq<string>): Parsed
    decreases |names|
  {
    if |names| == 0 then [] else AddInclude(Group(names[..|names| - 1]), names[|names| - 1])
  }

  lemma GroupAppend(names: seq<string>, name: string)
    ensures Group(names + [name]) == AddInclude(Group(names), name)
  {
    assert (names + [name])[..|names|] == names;
  }

  /** `parseIncludes($includes, $resource)`. */
  function IncludesOf(rt: Runtime, includes: seq<Include>, res: Resource, fuel: nat): Result<Parsed, Error> {
    match Survivors(rt, includes, res, fuel)
    case Err(e) => Err(e)
    case Ok(names) => Ok(Group(names))
  }

  /** The truthy parameters of the includes with key `k`, in order. */
  function ParamsFor(names: seq<string>, k: string): seq<string>
    decreases |names|
  {
    if |names| == 0 then []
    else
      var n := names[|names| - 1];
      ParamsFor(names[..|names| - 1], k)
        + if KeyOf(n) == k && ParamOf(n).Some? && Truthy(ParamOf(n).value) then [ParamOf(n).value] else []
  }

  lemma AddIncludeLookup(p: Parsed, name: string, k: string)
    ensures Lookup(AddInclude(p, name), k).Some? <==> Lookup(p, k).Some? || KeyOf(name) == k
    ensures Lookup(AddInclude(p, name), k).Some? ==>
      Lookup(AddInclude(p, name), k).value
        == (if Lookup(p, k).Some? then Lookup(p, k).value else [])
           + if KeyOf(name) == k && ParamOf(name).Some? && Truthy(ParamOf(name).value) then [ParamOf(name).value] else []
  {
  }

  /** Every surviving include creates its key, and nothing else does. */
  lemma {:induction false} GroupKeys(names: seq<string>, k: string)
    ensures Lookup(Group(names), k).Some? <==> exists i :: 0 <= i < |names| && KeyOf(names[i]) == k
    decreases |names|
  {
    if |names| > 0 {
      var init := names[..|names| - 1];
      GroupKeys(init, k);
      AddIncludeLookup(Group(init), names[|names| - 1], k);
      if exists i :: 0 <= i < |init| && KeyOf(init[i]) == k {
        var i :| 0 <= i < |init| && KeyOf(init[i]) == k;
        assert names[i] == init[i];
      }
      if exists i :: 0 <= i < |names| && KeyOf(names[i]) == k {
        var i :| 0 <= i < |names| && KeyOf(names[i]) == k;
        if i < |names| - 1 {
          assert init[i] == names[i];
        }
      }
    }
  }

  /** Each key holds the truthy parameters of its includes, in input order. */
  lemma {:induction false} GroupParams(names: seq<string>, k: string)
    requires Lookup(Group(names), k).Some?
    ensures Lookup(Group(names), k).value == ParamsFor(names, k)
    decreases |names|
  {
    var init := names[..|names| - 1];
    AddIncludeLookup(Group(init), names[|names| - 1], k);
    if Lookup(Group(init), k).Some? {
      GroupParams(init, k);
    } else {
      GroupKeys(init, k);
      ParamsForAbsent(init, k);
    }
  }

  lemma {:induction false} ParamsForAbsent(names: seq<string>, k: string)
    requires forall i :: 0 <= i < |names| ==> KeyOf(names[i]) != k
    ensures ParamsFor(names, k) == []
    decreases |names|
  {
    if |names| > 0 {
      ParamsForAbsent(names[..|names| - 1], k);
    }
  }

  /** `"a.b.c"` yields key `a` with parameter `b.c`; `"a."` and `"a.0"`
      create key `a` and append nothing. */
  /** An include whose first `.` is at `i`. */
  lemma KeyParamAt(name: string, i: nat)
    requires i < |name| && name[i] == '.' && '.' !in name[..i]
    ensures KeyOf(name) == name[..i] && ParamOf(name) == Some(name[i + 1..])
  {
    IndexOfAfterFreePrefix(name[..i], '.', name[i + 1..]);
    assert name[..i] + ['.'] + name[i + 1..] == name;
  }

  /** The first include creates its key, holding its parameter if truthy. */
  lemma GroupSingle(name: string)
    ensures Group([name]) == [(KeyOf(name), if ParamOf(name).Some? && Truthy(ParamOf(name).value) then [ParamOf(name).value] else [])]
  {
    assert [name][..0] == [];
    var k := KeyOf(name);
    var none: seq<string> := [];
    var p1: Parsed := [(k, none)];
    assert Store([], k, none) == p1;
    assert Lookup(p1, k) == Some(none);
    if ParamOf(name).Some? {
      assert none + [ParamOf(name).value] == [ParamOf(name).value];
    }
  }

  /** `"a.b.c"` yields key `a` with parameter `b.c`; `"a."` and `"a.0"`
      create key `a` and append nothing. */
  lemma GroupExamples()
    ensures Group(["a.b.c"]) == [("a", ["b.c"])]
    ensures Group(["a."]) == [("a", [])]
    ensures Group(["a.0"]) == [("a", [])]
  {
    KeyParamAt("a.b.c", 1);
    assert "a.b.c"[..1] == "a" && "a.b.c"[2..] == "b.c";
    KeyParamAt("a.", 1);
    assert "a."[..1] == "a" && "a."[2..] == "";
    KeyParamAt("a.0", 1);
    assert "a.0"[..1] == "a" && "a.0"[2..] == "0";
    GroupSingle("a.b.c");
    GroupSingle("a.");
    GroupSingle("a.0");
  }

  /** Integer-keyed entries always survive. A string-keyed entry's
      condition is called until it is no longer callable; the entry survives
      exactly when what it settles to is truthy, and a condition that never
      settles is the error of the whole parse. */
  lemma SurvivorsCases(rt: Runtime, includes: seq<Include>, e: Include, res: Resource, fuel: nat)
    requires Survivors(rt, includes, res, fuel).Ok?
    ensures e.Listed? ==> Survivors(rt, includes + [e], res, fuel)
                          == Ok(Survivors(rt, includes, res, fuel).value + [e.name])
    ensures e.Keyed? && Settle(rt, e.cond, res, fuel).Ok? ==>
      Survivors(rt, includes + [e], res, fuel)
        == Ok(Survivors(rt, includes, res, fuel).value
              + if Holds(Settle(rt, e.cond, res, fuel).value) then [e.name] else [])
    ensures e.Keyed? && Settle(rt, e.cond, res, fuel).Err? ==>
      Survivors(rt, includes + [e], res, fuel) == Err(Settle(rt, e.cond, res, fuel).error)
    ensures e.Keyed? && !e.cond.CCallable? ==>
      Survivors(rt, includes + [e], res, fuel)
        == Ok(Survivors(rt, includes, res, fuel).value + if Holds(e.cond) then [e.name] else [])
  {
    var s := includes + [e];
    assert s[..|includes|] == includes;
    assert s[|s| - 1] == e;
    var names := Survivors(rt, includes, res, fuel).value;
    assert names + [] == names;
  }

  lemma SurvivorsStep(rt: Runtime, includes: seq<Include>, i: nat, res: Resource, fuel: nat)
    requires i < |includes| && Survivors(rt, includes[..i], res, fuel).Ok?
    ensures Survivors(rt, includes[..i + 1], res, fuel)
      == match Settle(rt, CondOf(includes[i]), res, fuel)
         case Err(e) => Err(e)
         case Ok(c) => Ok(Survivors(rt, includes[..i], res, fuel).value + if Holds(c) then [NameOf(includes[i])] else [])
  {
    assert includes[..i + 1][..i] == includes[..i];
  }

  /** The first include whose condition does not settle ends parsing. */
  lemma {:induction false} SurvivorsPrefixErr(rt: Runtime, includes: seq<Include>, n: nat, res: Resource, fuel: nat)
    requires n <= |includes| && Survivors(rt, includes[..n], res, fuel).Err?
    ensures Survivors(rt, includes, res, fuel) == Survivors(rt, includes[..n], res, fuel)
    decreases |includes|
  {
    if n < |includes| {
      var init := includes[..|includes| - 1];
      assert init[..n] == includes[..n];
      SurvivorsPrefixErr(rt, init, n, res, fuel);
    } else {
      assert includes[..n] == includes;
    }
  }

  /** A callable condition that only ever yields itself never settles. */
  lemma {:induction false} SettleSelfCall(rt: Runtime, id: nat, res: Resource, fuel: nat)
    requires rt.invoke(id, res) == CCallable(id)
    ensures Settle(rt, CCallable(id), res, fuel) == Err(ConditionDiverges)
    decreases fuel
  {
    if fuel > 0 {
      SettleSelfCall(rt, id, res, fuel - 1);
    }
  }

  // ---------------------------------------------------------------------
  // restify and restifyMany

  /** The entity after merging in the output of every include method the
      transformer has, in the order of the parsed keys. */
  function ApplyIncludes(rt: Runtime, t: Table, tr: Transformer, res: Resource, parsed: Parsed, base: Entity): Entity
    decreases |parsed|
  {
    if |parsed| == 0 then base
    else
      var e := ApplyIncludes(rt, t, tr, res, parsed[..|parsed| - 1], base);
      var (k, next) := parsed[|parsed| - 1];
      if rt.hasMethod(tr, k) then ArrayMerge(e, rt.callMethod(tr, k, t, res, next)) else e
  }

  lemma ApplyIncludesStep(rt: Runtime, t: Table, tr: Transformer, res: Resource, parsed: Parsed, i: nat, base: Entity)
    requires i < |parsed|
    ensures ApplyIncludes(rt, t, tr, res, parsed[..i + 1], base)
      == var e := ApplyIncludes(rt, t, tr, res, parsed[..i], base);
         if rt.hasMethod(tr, parsed[i].0) then ArrayMerge(e, rt.callMethod(tr, parsed[i].0, t, res, parsed[i].1)) else e
  {
    assert parsed[..i + 1][..i] == parsed[..i];
  }

  /** `restify($resource, $includes, $transformer)`. */
  function RestifyOf(rt: Runtime, t: Table, res: Resource, includes: seq<Include>,
                     given: Option<Transformer>, fuel: nat): Result<Option<Entity>, Error>
  {
    if res.NullResource? then Ok(None)
    else
      var tr :- if given.Some? then Ok(given.value) else TransformerFor(rt, t, res);
      var parsed :- IncludesOf(rt, includes, res, fuel);
      Ok(Some(ApplyIncludes(rt, t, tr, res, parsed, rt.transform(tr, t, res, parsed))))
  }

  /** Null is returned as it is, without looking for a transformer. */
  lemma RestifyNull(rt: Runtime, t: Table, includes: seq<Include>, given: Option<Transformer>, fuel: nat)
    ensures RestifyOf(rt, t, NullResource, includes, given, fuel) == Ok(None)
  {
  }

  /** Without a given transformer, a failed lookup is the error of `restify`. */
  lemma RestifyNotFound(rt: Runtime, t: Table, res: Resource, includes: seq<Include>, fuel: nat)
    requires !res.NullResource? && TransformerFor(rt, t, res).Err?
    ensures RestifyOf(rt, t, res, includes, None, fuel) == Err(TransformerFor(rt, t, res).error)
  {
  }

  /** Include methods only add to the entity: a string key keeps the
      transformer's value unless an include method sets it, and the
      integer-keyed values of the transformer come first, in order. */
  lemma {:induction false} ApplyIncludesKeeps(rt: Runtime, t: Table, tr: Transformer, res: Resource,
                                              parsed: Parsed, base: Entity)
    ensures |IntKeyed(base)| <= |IntKeyed(ApplyIncludes(rt, t, tr, res, parsed, base))|
    ensures IntKeyed(base) == IntKeyed(ApplyIncludes(rt, t, tr, res, parsed, base))[..|IntKeyed(base)|]
    ensures (forall i :: 0 <= i < |parsed| ==> !rt.hasMethod(tr, parsed[i].0)) ==>
      ApplyIncludes(rt, t, tr, res, parsed, base) == base
    decreases |parsed|
  {
    if |parsed| > 0 {
      var init := parsed[..|parsed| - 1];
      ApplyIncludesKeeps(rt, t, tr, res, init, base);
      var e := ApplyIncludes(rt, t, tr, res, init, base);
      var (k, next) := parsed[|parsed| - 1];
      if rt.hasMethod(tr, k) {
        ArrayMergeInts(e, rt.callMethod(tr, k, t, res, next));
        assert IntKeyed(ArrayMerge(e, rt.callMethod(tr, k, t, res, next)))[..|IntKeyed(e)|] == IntKeyed(e);
      }
      assert forall i :: 0 <= i < |init| ==> init[i] == parsed[i];
    }
  }

  /** An include method's string keys override the entity's. */
  lemma ApplyIncludeOverrides(rt: Runtime, t: Table, tr: Transformer, res: Resource,
                              parsed: Parsed, base: Entity, s: string)
    requires |parsed| > 0 && rt.hasMethod(tr, parsed[|parsed| - 1].0)
    ensures var (k, next) := parsed[|parsed| - 1];
      var out := rt.callMethod(tr, k, t, res, next);
      LastValue(out, StrKey(s)).Some? ==>
        Lookup(ApplyIncludes(rt, t, tr, res, parsed, base), StrKey(s)) == LastValue(out, StrKey(s))
  {
    var e := ApplyIncludes(rt, t, tr, res, parsed[..|parsed| - 1], base);
    var (k, next) := parsed[|parsed| - 1];
    ArrayMergeString(e, rt.callMethod(tr, k, t, res, next), s);
  }

  /** `restifyMany($resource, ...)`: each value restified under its own key. */
  function RestifyManyOf(rt: Runtime, t: Table, resources: seq<(Key, Resource)>, includes: seq<Include>,
                         given: Option<Transformer>, fuel: nat): Result<seq<(Key, Option<Entity>)>, Error>
  {
    StoreEach((v: Resource) => RestifyOf(rt, t, v, includes, given, fuel), resources)
  }

  /** The result has exactly the keys of the input, in order, and each value
      is the restified input value. */
  lemma RestifyManyKeys(rt: Runtime, t: Table, resources: seq<(Key, Resource)>,
                        includes: seq<Include>, given: Option<Transformer>, fuel: nat)
    requires UniqueKeys(resources)
    requires RestifyManyOf(rt, t, resources, includes, given, fuel).Ok?
    ensures var r := RestifyManyOf(rt, t, resources, includes, given, fuel).value;
      && |r| == |resources|
      && forall i :: 0 <= i < |r| ==>
           r[i].0 == resources[i].0 && RestifyOf(rt, t, resources[i].1, includes, given, fuel) == Ok(r[i].1)
  {
    StoreEachKeys((v: Resource) => RestifyOf(rt, t, v, includes, given, fuel), resources);
  }

  /** `restifyMany` fails exactly when restifying one of the values fails. */
  lemma RestifyManyFails(rt: Runtime, t: Table, resources: seq<(Key, Resource)>,
                         includes: seq<Include>, given: Option<Transformer>, fuel: nat)
    ensures RestifyManyOf(rt, t, resources, includes, given, fuel).Err? <==>
      exists i :: 0 <= i < |resources| && RestifyOf(rt, t, resources[i].1, includes, given, fuel).Err?
  {
    StoreEachFails((v: Resource) => RestifyOf(rt, t, v, includes, given, fuel), resources);
  }

  // ---------------------------------------------------------------------
  // The restifier object

  class Restifier {
    var transformers: Table

    /** `new Restifier($transformers)`: every entry is registered in turn. */
    constructor(entries: seq<(string, Transformer)>)
      ensures transformers == Register([], entries)
    {
      transformers := [];
      new;
      for i := 0 to |entries|
        invariant transformers == Register([], entries[..i])
      {
        assert entries[..i + 1][..i] == entries[..i];
        AddTransformer(entries[i].0, entries[i].1);
      }
      assert entries[..|entries|] == entries;
    }

    /** `addTransformer($name, $transformer)`: a name already registered is
        overwritten in place. */
    method AddTransformer(name: string, tr: Transformer)
      modifies this
      ensures transformers == Store(old(transformers), name, tr)
    {
      transformers := Store(transformers, name, tr);
    }

    method FindTransformer(rt: Runtime, res: Resource) returns (r: Result<Transformer, Error>)
      ensures r == TransformerFor(rt, transformers, res)
    {
      if res.Object? {
        var exact := Lookup(transformers, res.cls);
        if exact.Some? {
          return Ok(exact.value);
        }
        for i := 0 to |transformers|
          invariant FirstInstance(rt, transformers, res) == FirstInstance(rt, transformers[i..], res)
        {
          if rt.instanceOf(res, transformers[i].0) {
            return Ok(transformers[i].1);
          }
          assert transformers[i..][1..] == transformers[i + 1..];
        }
        return Err(NotFoundTransformer("cannot find the transformer named " + res.cls + "."));
      }
      return Err(NotFoundTransformer("resource is not an object."));
    }

    /** The `while (is_callable($condition))` loop of `parseIncludes`, calling
        the condition at most `fuel` times. */
    method SettleCondition(rt: Runtime, c: Cond, res: Resource, fuel: nat) returns (r: Result<Cond, Error>)
      ensures r == Settle(rt, c, res, fuel)
    {
      var condition := c;
      var budget := fuel;
      while condition.CCallable?
        invariant Settle(rt, condition, res, budget) == Settle(rt, c, res, fuel)
        decreases budget
      {
        if budget == 0 {
          return Err(ConditionDiverges);
        }
        condition := rt.invoke(condition.id, res);
        budget := budget - 1;
      }
      return Ok(condition);
    }

    /** `parseIncludes($includes, $resource)`, calling a callable condition
        at most `fuel` times. */
    method ParseIncludes(rt: Runtime, includes: seq<Include>, res: Resource, fuel: nat)
      returns (r: Result<Parsed, Error>)
      ensures r == IncludesOf(rt, includes, res, fuel)
    {
      var parsed: Parsed := [];
      ghost var names: seq<string> := [];
      for i := 0 to |includes|
        invariant Survivors(rt, includes[..i], res, fuel) == Ok(names)
        invariant parsed == Group(names)
      {
        SurvivorsStep(rt, includes, i, res, fuel);
        var inc := NameOf(includes[i]);
        var settled := SettleCondition(rt, CondOf(includes[i]), res, fuel);
        if settled.Err? {
          SurvivorsPrefixErr(rt, includes, i + 1, res, fuel);
          return Err(settled.error);
        }
        var condition := settled.value;
        if !Holds(condition) {
          assert names + [] == names;
          continue;
        }
        ghost var before := parsed;
        var key := KeyOf(inc);
        var param := ParamOf(inc);
        if Lookup(parsed, key).None? {
          parsed := Store(parsed, key, []);
        }
        if param.Some? && Truthy(param.value) {
          parsed := Store(parsed, key, Lookup(parsed, key).value + [param.value]);
        }
        assert parsed == AddInclude(before, inc);
        GroupAppend(names, inc);
        names := names + [inc];
      }
      assert includes[..|includes|] == includes;
      return Ok(parsed);
    }

    method Restify(rt: Runtime, res: Resource, includes: seq<Include>, given: Option<Transformer>, fuel: nat)
      returns (r: Result<Option<Entity>, Error>)
      ensures r == RestifyOf(rt, transformers, res, includes, given, fuel)
    {
      if res.NullResource? {
        return Ok(None);
      }
      var tr: Transformer;
      if given.Some? {
        tr := given.value;
      } else {
        var found := FindTransformer(rt, res);
        if found.Err? {
          return Err(found.error);
        }
        tr := found.value;
      }
      var p := ParseIncludes(rt, includes, res, fuel);
      if p.Err? {
        return Err(p.error);
      }
      var parsed := p.value;
      ghost var base := rt.transform(tr, transformers, res, parsed);
      var entity := rt.transform(tr, transformers, res, parsed);
      for i := 0 to |parsed|
        invariant entity == ApplyIncludes(rt, transformers, tr, res, parsed[..i], base)
      {
        ApplyIncludesStep(rt, transformers, tr, res, parsed, i, base);
        var (key, next) := parsed[i];
        if rt.hasMethod(tr, key) {
          entity := ArrayMerge(entity, rt.callMethod(tr, key, transformers, res, next));
        }
      }
      assert parsed[..|parsed|] == parsed;
      return Ok(Some(entity));
    }

    method RestifyMany(rt: Runtime, resources: seq<(Key, Resource)>, includes: seq<Include>,
                       given: Option<Transformer>, fuel: nat)
      returns (r: Result<seq<(Key, Option<Entity>)>, Error>)
      ensures r == RestifyManyOf(rt, transformers, resources, includes, given, fuel)
    {
      var result: seq<(Key, Option<Entity>)> := [];
      for i := 0 to |resources|
        invariant RestifyManyOf(rt, transformers, resources[..i], includes, given, fuel) == Ok(result)
      {
        assert resources[..i + 1][..i] == resources[..i];
        var (key, value) := resources[i];
        var out := Restify(rt, value, includes, given, fuel);
        if out.Err? {
          ghost var t := transformers;
          StoreEachPrefixErr((v: Resource) => RestifyOf(rt, t, v, includes, given, fuel), resources, i + 1);
          return Err(out.error);
        }
        result := Store(result, key, out.value);
      }
      assert resources[..|resources|] == resources;
      return Ok(result);
    }
  }
}
